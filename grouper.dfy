// Model of uscode/grouper.py: the single-pass regrouping of GPO Locator
// lines into title, chapter and section documents, each with its
// sub-documents.

module Grouper {
  import opened Wrappers
  import opened Strings
  import opened GpoLines

  /** A line's `(code, arg)` tuple. */
  type CodeArg = (string, Option<string>)

  /** Maps a code-argument tuple to the lines that carry it. */
  type CodeMap = map<CodeArg, seq<LocatorLine>>

  const I74: CodeArg := ("I", Some("74"))

  /** The default `boundaries` table: each top-level boundary and the
      sub-boundaries that open sub-documents inside it. */
  const DefaultBoundaries: map<CodeArg, seq<CodeArg>> := map[
    ("R", Some("01")) := [("I", Some("93"))],
    ("R", Some("10")) := [("I", Some("70"))],
    ("I", Some("80")) := [("I", Some("89")), ("I", Some("53"))]
  ]

  /** No top-level boundary is I74 or one of its own sub-boundaries, so a
      top-level boundary line always starts a new document. */
  predicate WellFormed(boundaries: map<CodeArg, seq<CodeArg>>)
  {
    forall c :: c in boundaries ==> c != I74 && c !in boundaries[c]
  }

  lemma DefaultWellFormed()
    ensures WellFormed(DefaultBoundaries)
  {
  }

  // ---------------------------------------------------------------------------
  // Documents
  // ---------------------------------------------------------------------------

  /** A sub-document is filed under the stripped data of its I74 heading
      line, or under the code-argument tuple of the line that opened it. */
  datatype SubdocId = Heading(text: string) | Opener(codearg: CodeArg)

  datatype Subdoc = Subdoc(lines: seq<LocatorLine>, codemap: CodeMap)

  /** A document. `id` is missing for the lines before the first top-level
      boundary. The closed sub-documents are kept in closing order, each
      with the id it is filed under; `DocsMap` gives the source's
      id-to-list dictionary. */
  datatype Document = Document(id: Option<CodeArg>, lines: seq<LocatorLine>,
                               codemap: CodeMap, docs: seq<(SubdocId, Subdoc)>)

  /** `subdocs`: each id with the sub-documents filed under it, in order. */
  function DocsMap(docs: seq<(SubdocId, Subdoc)>): (r: map<SubdocId, seq<Subdoc>>)
    ensures forall id :: id in r ==> r[id] != []
  {
    if docs == [] then map[]
    else
      var m := DocsMap(docs[..|docs| - 1]);
      var (id, sd) := docs[|docs| - 1];
      m[id := (if id in m then m[id] else []) + [sd]]
  }

  /** The sub-documents filed under `id`, in closing order. */
  function FiledUnder(docs: seq<(SubdocId, Subdoc)>, id: SubdocId): seq<Subdoc>
  {
    if docs == [] then []
    else FiledUnder(docs[..|docs| - 1], id) + (if docs[|docs| - 1].0 == id then [docs[|docs| - 1].1] else [])
  }

  /** The dictionary holds an id exactly when some sub-document is filed
      under it, and then the list of them all, in order. */
  lemma {:induction false} DocsMapFiled(docs: seq<(SubdocId, Subdoc)>, id: SubdocId)
    ensures id in DocsMap(docs) <==> exists j :: 0 <= j < |docs| && docs[j].0 == id
    ensures id in DocsMap(docs) ==> DocsMap(docs)[id] == FiledUnder(docs, id)
    ensures id !in DocsMap(docs) ==> FiledUnder(docs, id) == []
  {
    if docs != [] {
      var front := docs[..|docs| - 1];
      DocsMapFiled(front, id);
      if exists j :: 0 <= j < |front| && front[j].0 == id {
        var j :| 0 <= j < |front| && front[j].0 == id;
        assert docs[j] == front[j];
      }
      if exists j :: 0 <= j < |docs| && docs[j].0 == id {
        var j :| 0 <= j < |docs| && docs[j].0 == id;
        if j < |front| { assert front[j] == docs[j]; }
      }
    }
  }

  /** `Document.first_code`: the tuple of the document's first line. */
  function FirstCode(d: Document): CodeArg
    requires d.lines != []
  {
    AsTuple(d.lines[0])
  }

  /** The tuple of the first line, if any. */
  function OpenerOf(lines: seq<LocatorLine>): Option<CodeArg>
  {
    if lines == [] then None else Some(AsTuple(lines[0]))
  }

  /** `codemap[codearg].append(line)` on a defaultdict of lists. */
  function Append(m: CodeMap, c: CodeArg, line: LocatorLine): CodeMap
  {
    m[c := (if c in m then m[c] else []) + [line]]
  }

  /** The entry of the opening tuple is the document's own list of lines:
      appending to that list shows through the code map. */
  function Alias(m: CodeMap, opener: Option<CodeArg>, lines: seq<LocatorLine>): CodeMap
  {
    if opener.Some? then m[opener.value := lines] else m
  }

  function AddToDoc(d: Document, line: LocatorLine): Document
  {
    var lines := d.lines + [line];
    d.(lines := lines, codemap := Alias(Append(d.codemap, AsTuple(line), line), d.id, lines))
  }

  function AddToSubdoc(sd: Subdoc, line: LocatorLine): Subdoc
  {
    var lines := sd.lines + [line];
    Subdoc(lines, Alias(Append(sd.codemap, AsTuple(line), line), OpenerOf(sd.lines), lines))
  }

  /** `subdocs[subdoc_id].append(subdoc)` when a sub-document is open. */
  function CloseOpen(d: Document, open: Option<(SubdocId, Subdoc)>): Document
  {
    if open.Some? then d.(docs := d.docs + [open.value]) else d
  }

  function SubdocIdOf(line: LocatorLine): SubdocId
  {
    if AsTuple(line) == I74 then Heading(Strip(line.data)) else Opener(AsTuple(line))
  }

  // ---------------------------------------------------------------------------
  // The state machine
  // ---------------------------------------------------------------------------

  /** The loop's state: the emitted documents, the current document, the
      open sub-document (`in_subdoc` is `open.Some?`) and the current
      sub-boundaries. */
  datatype GroupState = GroupState(res: seq<Document>, doc: Document,
                                   open: Option<(SubdocId, Subdoc)>,
                                   subBoundaries: seq<CodeArg>)

  const Start: GroupState := GroupState([], Document(None, [], map[], []), None, [I74])

  /** One turn of the loop of `group`. */
  function Step(boundaries: map<CodeArg, seq<CodeArg>>, st: GroupState, line: LocatorLine): GroupState
  {
    var c := AsTuple(line);
    var sub := if c in boundaries then boundaries[c] + [I74] else st.subBoundaries;
    if c in sub then
      GroupState(st.res, CloseOpen(st.doc, st.open),
                 Some((SubdocIdOf(line), Subdoc([line], map[c := [line]]))), sub)
    else if c in boundaries then
      GroupState(st.res + [CloseOpen(st.doc, st.open)],
                 Document(Some(c), [line], map[c := [line]], []), None, sub)
    else if st.open.Some? then
      GroupState(st.res, st.doc, Some((st.open.value.0, AddToSubdoc(st.open.value.1, line))), sub)
    else
      GroupState(st.res, AddToDoc(st.doc, line), None, sub)
  }

  /** The state after the loop has consumed `ls`. */
  function Run(boundaries: map<CodeArg, seq<CodeArg>>, ls: seq<LocatorLine>): GroupState
    decreases |ls|
  {
    if ls == [] then Start
    else Step(boundaries, Run(boundaries, ls[..|ls| - 1]), ls[|ls| - 1])
  }

  /** What `group` returns. */
  function Grouped(boundaries: map<CodeArg, seq<CodeArg>>, ls: seq<LocatorLine>): seq<Document>
  {
    Run(boundaries, ls).res
  }

  /** `group`: one pass over the lines, with the source's own variables. */
  method Group(boundaries: map<CodeArg, seq<CodeArg>>, input: seq<LocatorLine>)
    returns (res: seq<Document>)
    ensures res == Grouped(boundaries, input)
  {
    res := [];
    var lines: seq<LocatorLine> := [];
    var codemap: CodeMap := map[];
    var subdocs: seq<(SubdocId, Subdoc)> := [];
    var docId: Option<CodeArg> := None;
    var inSubdoc := false;
    var subdocLines: seq<LocatorLine> := [];
    var subdocCodemap: CodeMap := map[];
    var subdocId := Heading("");
    var subBoundaries := [I74];
    var i := 0;
    while i < |input|
      invariant 0 <= i <= |input|
      invariant Run(boundaries, input[..i]) ==
                GroupState(res, Document(docId, lines, codemap, subdocs),
                           if inSubdoc then Some((subdocId, Subdoc(subdocLines, subdocCodemap))) else None,
                           subBoundaries)
    {
      assert input[..i + 1][..i] == input[..i];
      var line := input[i];
      var codearg := AsTuple(line);
      if codearg in boundaries {
        subBoundaries := boundaries[codearg] + [I74];
      }
      if codearg in subBoundaries {
        if inSubdoc {
          subdocs := subdocs + [(subdocId, Subdoc(subdocLines, subdocCodemap))];
        }
        subdocLines := [line];
        subdocCodemap := map[codearg := subdocLines];
        if codearg == I74 {
          subdocId := Heading(Strip(line.data));
        } else {
          subdocId := Opener(codearg);
        }
        inSubdoc := true;
      } else if codearg in boundaries {
        if inSubdoc {
          subdocs := subdocs + [(subdocId, Subdoc(subdocLines, subdocCodemap))];
        }
        res := res + [Document(docId, lines, codemap, subdocs)];
        lines := [line];
        codemap := map[codearg := lines];
        subdocs := [];
        docId := Some(codearg);
        inSubdoc := false;
      } else if inSubdoc {
        subdocCodemap := Alias(Append(subdocCodemap, codearg, line), OpenerOf(subdocLines),
                               subdocLines + [line]);
        subdocLines := subdocLines + [line];
      } else {
        codemap := Alias(Append(codemap, codearg, line), docId, lines + [line]);
        lines := lines + [line];
      }
      i := i + 1;
    }
    assert input[..i] == input;
  }

  // ---------------------------------------------------------------------------
  // Counting documents
  // ---------------------------------------------------------------------------

  /** The number of top-level boundary lines. */
  function TopCount(boundaries: map<CodeArg, seq<CodeArg>>, ls: seq<LocatorLine>): nat
    decreases |ls|
  {
    if ls == [] then 0
    else TopCount(boundaries, ls[..|ls| - 1]) + (if AsTuple(ls[|ls| - 1]) in boundaries then 1 else 0)
  }

  /** One document is emitted per top-level boundary line: the one that was
      open when the boundary arrived. The document open at the end is never
      emitted. */
  lemma {:induction false} GroupCount(boundaries: map<CodeArg, seq<CodeArg>>, ls: seq<LocatorLine>)
    requires WellFormed(boundaries)
    ensures |Grouped(boundaries, ls)| == TopCount(boundaries, ls)
  {
    if ls != [] {
      GroupCount(boundaries, ls[..|ls| - 1]);
    }
  }

  /** A line that is not a top-level boundary leaves the result alone; a
      top-level boundary line emits the current document, with its open
      sub-document closed into it. */
  lemma GroupedStep(boundaries: map<CodeArg, seq<CodeArg>>, ls: seq<LocatorLine>, line: LocatorLine)
    requires WellFormed(boundaries)
    ensures AsTuple(line) !in boundaries ==> Grouped(boundaries, ls + [line]) == Grouped(boundaries, ls)
    ensures AsTuple(line) in boundaries ==>
      Grouped(boundaries, ls + [line]) ==
      Grouped(boundaries, ls) + [CloseOpen(Run(boundaries, ls).doc, Run(boundaries, ls).open)]
  {
    assert (ls + [line])[..|ls|] == ls;
  }

  // ---------------------------------------------------------------------------
  // Every line in exactly one place, in order
  // ---------------------------------------------------------------------------

  /** The lines of the sub-documents, in closing order. */
  function SubLines(docs: seq<(SubdocId, Subdoc)>): seq<LocatorLine>
    decreases |docs|
  {
    if docs == [] then [] else SubLines(docs[..|docs| - 1]) + docs[|docs| - 1].1.lines
  }

  /** A document's own lines followed by its sub-documents' lines. */
  function Content(d: Document): seq<LocatorLine>
  {
    d.lines + SubLines(d.docs)
  }

  function AllLines(ds: seq<Document>): seq<LocatorLine>
    decreases |ds|
  {
    if ds == [] then [] else AllLines(ds[..|ds| - 1]) + Content(ds[|ds| - 1])
  }

  /** Every line placed so far: the emitted documents, then the current one
      with its open sub-document. */
  function Placed(st: GroupState): seq<LocatorLine>
  {
    AllLines(st.res) + Content(CloseOpen(st.doc, st.open))
  }

  lemma SubLinesSnoc(docs: seq<(SubdocId, Subdoc)>, p: (SubdocId, Subdoc))
    ensures SubLines(docs + [p]) == SubLines(docs) + p.1.lines
  {
    assert (docs + [p])[..|docs|] == docs;
  }

  lemma AllLinesSnoc(ds: seq<Document>, d: Document)
    ensures AllLines(ds + [d]) == AllLines(ds) + Content(d)
  {
    assert (ds + [d])[..|ds|] == ds;
  }

  /** Once a sub-document has opened, every later line up to the next
      top-level boundary goes to a sub-document. */
  lemma {:induction false} NoSubdocsBeforeFirst(boundaries: map<CodeArg, seq<CodeArg>>, ls: seq<LocatorLine>)
    ensures Run(boundaries, ls).open.None? ==> Run(boundaries, ls).doc.docs == []
  {
    if ls != [] {
      NoSubdocsBeforeFirst(boundaries, ls[..|ls| - 1]);
    }
  }

  lemma PlacedNewSubdoc(res: seq<Document>, d: Document, open: Option<(SubdocId, Subdoc)>,
                        p: (SubdocId, Subdoc), sb: seq<CodeArg>, sb': seq<CodeArg>)
    ensures Placed(GroupState(res, CloseOpen(d, open), Some(p), sb')) ==
            Placed(GroupState(res, d, open, sb)) + p.1.lines
  {
    SubLinesSnoc(CloseOpen(d, open).docs, p);
  }

  lemma PlacedNewDoc(res: seq<Document>, d: Document, open: Option<(SubdocId, Subdoc)>,
                     d': Document, sb: seq<CodeArg>, sb': seq<CodeArg>)
    requires d'.docs == []
    ensures Placed(GroupState(res + [CloseOpen(d, open)], d', None, sb')) ==
            Placed(GroupState(res, d, open, sb)) + d'.lines
  {
    AllLinesSnoc(res, CloseOpen(d, open));
  }

  lemma PlacedInSubdoc(res: seq<Document>, d: Document, p: (SubdocId, Subdoc), line: LocatorLine,
                       sb: seq<CodeArg>)
    ensures Placed(GroupState(res, d, Some((p.0, AddToSubdoc(p.1, line))), sb)) ==
            Placed(GroupState(res, d, Some(p), sb)) + [line]
  {
    SubLinesSnoc(d.docs, p);
    SubLinesSnoc(d.docs, (p.0, AddToSubdoc(p.1, line)));
  }

  lemma PlacedInDoc(res: seq<Document>, d: Document, line: LocatorLine, sb: seq<CodeArg>)
    requires d.docs == []
    ensures Placed(GroupState(res, AddToDoc(d, line), None, sb)) ==
            Placed(GroupState(res, d, None, sb)) + [line]
  {
  }

  /** One turn of the loop places its line after every line placed so far. */
  lemma PlacedStep(boundaries: map<CodeArg, seq<CodeArg>>, st: GroupState, line: LocatorLine)
    requires st.open.None? ==> st.doc.docs == []
    ensures Placed(Step(boundaries, st, line)) == Placed(st) + [line]
  {
    var c := AsTuple(line);
    var sub := if c in boundaries then boundaries[c] + [I74] else st.subBoundaries;
    if c in sub {
      PlacedNewSubdoc(st.res, st.doc, st.open, (SubdocIdOf(line), Subdoc([line], map[c := [line]])),
                      st.subBoundaries, sub);
    } else if c in boundaries {
      PlacedNewDoc(st.res, st.doc, st.open, Document(Some(c), [line], map[c := [line]], []),
                   st.subBoundaries, sub);
    } else if st.open.Some? {
      PlacedInSubdoc(st.res, st.doc, st.open.value, line, sub);
    } else {
      PlacedInDoc(st.res, st.doc, line, sub);
    }
  }

  /** Every input line is placed in exactly one list of lines, and the
      lists, read in order, give back the input. */
  lemma {:induction false} GroupKeepsLines(boundaries: map<CodeArg, seq<CodeArg>>, ls: seq<LocatorLine>)
    ensures Placed(Run(boundaries, ls)) == ls
    decreases |ls|
  {
    if ls != [] {
      var prev := ls[..|ls| - 1];
      GroupKeepsLines(boundaries, prev);
      NoSubdocsBeforeFirst(boundaries, prev);
      PlacedStep(boundaries, Run(boundaries, prev), ls[|ls| - 1]);
      LastSplit(ls);
    }
  }

  // ---------------------------------------------------------------------------
  // The shape of every document
  // ---------------------------------------------------------------------------

  /** The lines of `lines` that carry `c`, in order. */
  function LinesWith(lines: seq<LocatorLine>, c: CodeArg): seq<LocatorLine>
    decreases |lines|
  {
    if lines == [] then []
    else LinesWith(lines[..|lines| - 1], c) + (if AsTuple(lines[|lines| - 1]) == c then [lines[|lines| - 1]] else [])
  }

  function CodeArgs(lines: seq<LocatorLine>): set<CodeArg>
  {
    set j | 0 <= j < |lines| :: AsTuple(lines[j])
  }

  /** A code map lists, for each tuple that occurs, the lines that carry
      it, except that the opening tuple's entry is all the lines. */
  predicate MapsLines(m: CodeMap, lines: seq<LocatorLine>, opener: Option<CodeArg>)
  {
    m.Keys == CodeArgs(lines) &&
    forall c :: c in m ==> m[c] == (if opener == Some(c) then lines else LinesWith(lines, c))
  }

  /** A closed or open sub-document: it starts with its opening line, it is
      filed under that line's id, and its code map lists its lines. */
  predicate SubdocOk(p: (SubdocId, Subdoc))
  {
    p.1.lines != [] && p.0 == SubdocIdOf(p.1.lines[0]) &&
    MapsLines(p.1.codemap, p.1.lines, OpenerOf(p.1.lines))
  }

  /** A document opened by a boundary starts with that boundary line, and
      its code map and sub-documents are in order. */
  predicate DocOk(boundaries: map<CodeArg, seq<CodeArg>>, d: Document)
  {
    (d.id.Some? ==> d.lines != [] && FirstCode(d) == d.id.value && d.id.value in boundaries) &&
    MapsLines(d.codemap, d.lines, d.id) &&
    forall j :: 0 <= j < |d.docs| ==> SubdocOk(d.docs[j])
  }

  /** Only the first emitted document (the lines before the first
      boundary) has no id. */
  predicate Emitted(boundaries: map<CodeArg, seq<CodeArg>>, res: seq<Document>)
  {
    forall k :: 0 <= k < |res| ==> DocOk(boundaries, res[k]) && (res[k].id.None? <==> k == 0)
  }

  predicate StateOk(boundaries: map<CodeArg, seq<CodeArg>>, st: GroupState)
  {
    Emitted(boundaries, st.res) &&
    DocOk(boundaries, st.doc) && (st.doc.id.None? <==> st.res == []) &&
    (st.open.Some? ==> SubdocOk(st.open.value) && AsTuple(st.open.value.1.lines[0]) in st.subBoundaries)
  }

  lemma {:induction false} LinesWithAbsent(lines: seq<LocatorLine>, c: CodeArg)
    requires c !in CodeArgs(lines)
    ensures LinesWith(lines, c) == []
    decreases |lines|
  {
    if lines != [] {
      var prev := lines[..|lines| - 1];
      assert forall j :: 0 <= j < |prev| ==> prev[j] == lines[j];
      assert AsTuple(lines[|lines| - 1]) in CodeArgs(lines);
      LinesWithAbsent(prev, c);
    }
  }

  /** Appending a line whose tuple is not the opening one keeps the code
      map in step with the lines. */
  lemma AppendMapsLines(m: CodeMap, lines: seq<LocatorLine>, opener: Option<CodeArg>, line: LocatorLine)
    requires MapsLines(m, lines, opener)
    requires opener.Some? ==> opener.value in m && AsTuple(line) != opener.value
    ensures MapsLines(Alias(Append(m, AsTuple(line), line), opener, lines + [line]), lines + [line], opener)
  {
    var t := AsTuple(line);
    var lines' := lines + [line];
    var m' := Alias(Append(m, t, line), opener, lines');
    CodeArgsSnoc(lines, line);
    assert m'.Keys == CodeArgs(lines');
    forall c | c in m'
      ensures m'[c] == (if opener == Some(c) then lines' else LinesWith(lines', c))
    {
      if opener != Some(c) {
        LinesWithSnoc(lines, line, c);
        if c == t && t !in m {
          LinesWithAbsent(lines, t);
        }
      }
    }
  }

  lemma CodeArgsSnoc(lines: seq<LocatorLine>, line: LocatorLine)
    ensures CodeArgs(lines + [line]) == CodeArgs(lines) + {AsTuple(line)}
  {
    var lines' := lines + [line];
    assert forall j :: 0 <= j < |lines| ==> lines'[j] == lines[j];
    assert lines'[|lines|] == line;
  }

  lemma LinesWithSnoc(lines: seq<LocatorLine>, line: LocatorLine, c: CodeArg)
    ensures LinesWith(lines + [line], c) == LinesWith(lines, c) + (if AsTuple(line) == c then [line] else [])
  {
    assert (lines + [line])[..|lines|] == lines;
  }

  /** The code map a document or sub-document starts with. */
  lemma SingleMapsLines(line: LocatorLine)
    ensures MapsLines(map[AsTuple(line) := [line]], [line], Some(AsTuple(line)))
  {
    assert AsTuple([line][0]) in CodeArgs([line]);
    assert CodeArgs([line]) == {AsTuple(line)};
  }

  lemma EmittedSnoc(boundaries: map<CodeArg, seq<CodeArg>>, res: seq<Document>, d: Document)
    requires Emitted(boundaries, res) && DocOk(boundaries, d) && (d.id.None? <==> res == [])
    ensures Emitted(boundaries, res + [d])
  {
  }

  lemma CloseOpenOk(boundaries: map<CodeArg, seq<CodeArg>>, d: Document, open: Option<(SubdocId, Subdoc)>)
    requires DocOk(boundaries, d) && (open.Some? ==> SubdocOk(open.value))
    ensures DocOk(boundaries, CloseOpen(d, open)) && CloseOpen(d, open).id == d.id
  {
  }

  /** One turn of the loop keeps every document well shaped. */
  lemma StepOk(boundaries: map<CodeArg, seq<CodeArg>>, st: GroupState, line: LocatorLine)
    requires WellFormed(boundaries) && StateOk(boundaries, st)
    ensures StateOk(boundaries, Step(boundaries, st, line))
  {
    var c := AsTuple(line);
    var sub := if c in boundaries then boundaries[c] + [I74] else st.subBoundaries;
    if c in sub {
      SingleMapsLines(line);
      CloseOpenOk(boundaries, st.doc, st.open);
    } else if c in boundaries {
      SingleMapsLines(line);
      CloseOpenOk(boundaries, st.doc, st.open);
      EmittedSnoc(boundaries, st.res, CloseOpen(st.doc, st.open));
    } else if st.open.Some? {
      var sd := st.open.value.1;
      AppendMapsLines(sd.codemap, sd.lines, OpenerOf(sd.lines), line);
    } else {
      AppendMapsLines(st.doc.codemap, st.doc.lines, st.doc.id, line);
    }
  }

  lemma {:induction false} RunOk(boundaries: map<CodeArg, seq<CodeArg>>, ls: seq<LocatorLine>)
    requires WellFormed(boundaries)
    ensures StateOk(boundaries, Run(boundaries, ls))
    decreases |ls|
  {
    if ls == [] {
      assert CodeArgs([]) == {};
    } else {
      RunOk(boundaries, ls[..|ls| - 1]);
      StepOk(boundaries, Run(boundaries, ls[..|ls| - 1]), ls[|ls| - 1]);
    }
  }

  /** Every emitted document after the first starts with the boundary line
      whose tuple is its id; the first has no id. Each code map lists each
      tuple's lines in order, the opening tuple's entry being all the lines,
      and each sub-document starts with the line it is filed under. */
  lemma GroupDocs(boundaries: map<CodeArg, seq<CodeArg>>, ls: seq<LocatorLine>)
    requires WellFormed(boundaries)
    ensures Emitted(boundaries, Grouped(boundaries, ls))
  {
    RunOk(boundaries, ls);
  }
}
