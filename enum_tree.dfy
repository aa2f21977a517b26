// Model of uscode/structure.py: nesting the enumerated paragraphs of a
// section's body into a tree. Nodes live in an arena (a sequence indexed by
// node id) and point to their parent by id; the root is node 0.

module EnumTree {
  import opened Wrappers
  import opened Strings
  import opened Schemes
  import opened Enums
  import opened GpoLines
  import opened Footnotes

  const IndexError := "IndexError: list index out of range"
  const StringIndexError := "IndexError: string index out of range"
  const NoParent := "AttributeError: 'Node' object has no attribute 'parent'"
  const NoneText := "AttributeError: 'NoneType' object has no attribute 'text'"
  const NoneNext := "AttributeError: 'NoneType' object has no attribute 'could_be_next_after'"
  const NoNode := "AttributeError: 'Token' object has no attribute 'node'"
  const NotSubscriptable := "TypeError: 'NoneType' object is not subscriptable"
  const NotANote := "AssertionError"

  /** A token of the stream: the enum (with the `_was_nested` mark that
      `Section.body_lines` sets), the text and the GPO Locator line. */
  datatype Token = Token(enum: Option<Enum>, wasNested: bool, text: Option<string>, linedata: Option<LocatorLine>)

  /** `if enum:` holds for an enum with non-empty text. */
  predicate Truthy(e: Option<Enum>)
  {
    e.Some? && e.value.text != []
  }

  /** `if text:` holds for a non-empty string. */
  predicate HasText(text: Option<string>)
  {
    text.Some? && text.value != []
  }

  /** Python's `s[k]` on a list: negative indices count from the end. */
  function PyIndex<T>(s: seq<T>, k: int): (r: Result<T>)
    ensures r.Ok? <==> -|s| <= k < |s|
    ensures 0 <= k < |s| ==> r == Ok(s[k])
    ensures -|s| <= k < 0 ==> r == Ok(s[|s| + k])
    ensures r.Err? ==> r.error == IndexError
  {
    if 0 <= k < |s| then Ok(s[k])
    else if -|s| <= k < 0 then Ok(s[|s| + k])
    else Err(IndexError)
  }

  // ---------------------------------------------------------------------------
  // The stream cursor
  // ---------------------------------------------------------------------------

  /** `Stream`: the tokens and the cursor `i`. */
  class Stream {
    const tokens: seq<Token>
    var i: int

    constructor (tokens: seq<Token>)
      ensures this.tokens == tokens && i == 0
    {
      this.tokens := tokens;
      i := 0;
    }

    /** `this()`: the token under the cursor. */
    function This(): (r: Result<Token>)
      reads this
      ensures 0 <= i < |tokens| ==> r == Ok(tokens[i])
      ensures r.Ok? <==> -|tokens| <= i < |tokens|
    {
      PyIndex(tokens, i)
    }

    /** `ahead(n)`: the token `n` places after the cursor. */
    function Ahead(n: int): (r: Result<Token>)
      reads this
      ensures 0 <= i + n < |tokens| ==> r == Ok(tokens[i + n])
      ensures r.Ok? <==> -|tokens| <= i + n < |tokens|
    {
      PyIndex(tokens, i + n)
    }

    /** `behind(n)`: the token `n` places before the cursor; before the
        start, Python's negative indexing reads from the end. */
    function Behind(n: int): (r: Result<Token>)
      reads this
      ensures 0 <= i - n < |tokens| ==> r == Ok(tokens[i - n])
      ensures -|tokens| <= i - n < 0 ==> r == Ok(tokens[|tokens| + i - n])
      ensures r.Ok? <==> -|tokens| <= i - n < |tokens|
    {
      PyIndex(tokens, i - n)
    }

    /** `previous()` is `behind(1)`. */
    function Previous(): (r: Result<Token>)
      reads this
      ensures 0 < i <= |tokens| ==> r == Ok(tokens[i - 1])
      ensures r == Behind(1)
    {
      Behind(1)
    }
  }

  // ---------------------------------------------------------------------------
  // Nodes
  // ---------------------------------------------------------------------------

  datatype Note = Note(offset: nat, text: string, number: string)

  /** A `Node` (enum, line, parent, children by id, footnotes) or a
      `TextNode`. The root has no parent. */
  datatype TreeNode =
    | Node(enum: Option<Enum>, linedata: Option<LocatorLine>, parent: Option<nat>,
           children: seq<nat>, footnotes: seq<Note>)
    | TextNode(content: string)

  const Root: TreeNode := Node(None, None, None, [], [])

  /** The tree behind a node: a non-root node's parent comes earlier and
      lists it as a child. */
  predicate ParentOk(nodes: seq<TreeNode>, n: nat)
    requires n < |nodes|
  {
    nodes[n].Node? && n > 0 ==>
      nodes[n].parent.Some? && nodes[n].parent.value < n && nodes[nodes[n].parent.value].Node? &&
      n in nodes[nodes[n].parent.value].children
  }

  /** A node's children come after it, and each child node points back to it. */
  predicate ChildrenOk(nodes: seq<TreeNode>, n: nat)
    requires n < |nodes|
  {
    nodes[n].Node? ==>
      forall k :: 0 <= k < |nodes[n].children| ==>
        n < nodes[n].children[k] < |nodes| &&
        (nodes[nodes[n].children[k]].Node? ==> nodes[nodes[n].children[k]].parent == Some(n))
  }

  predicate WellFormed(nodes: seq<TreeNode>)
  {
    |nodes| >= 1 && nodes[0].Node? && nodes[0].parent.None? &&
    forall n :: 0 <= n < |nodes| ==> ParentOk(nodes, n) && ChildrenOk(nodes, n)
  }

  /** `m` may receive children in a tree being parsed: it is the root or
      its enum is truthy. */
  predicate Chain(nodes: seq<TreeNode>, m: nat)
    requires m < |nodes|
  {
    m == 0 || (nodes[m].Node? && Truthy(nodes[m].enum))
  }

  /** Every node's parent is the root or a node with a truthy enum. */
  predicate ParentsTruthy(nodes: seq<TreeNode>)
  {
    forall n :: 0 < n < |nodes| && nodes[n].Node? && nodes[n].parent.Some? ==>
      nodes[n].parent.value < |nodes| && Chain(nodes, nodes[n].parent.value)
  }

  /** `b` is `a` with nodes added at the end, children added at the end of
      child lists and footnotes changed; nothing else differs. */
  predicate Same(x: TreeNode, y: TreeNode)
  {
    match x
    case TextNode(_) => y == x
    case Node(e, l, p, ch, _) => y.Node? && y.enum == e && y.linedata == l && y.parent == p && ch <= y.children
  }

  predicate Extends(a: seq<TreeNode>, b: seq<TreeNode>)
  {
    |a| <= |b| && forall k :: 0 <= k < |a| ==> Same(a[k], b[k])
  }

  lemma ExtendsTrans(a: seq<TreeNode>, b: seq<TreeNode>, c: seq<TreeNode>)
    requires Extends(a, b) && Extends(b, c)
    ensures Extends(a, c)
  {
    forall k | 0 <= k < |a|
      ensures Same(a[k], c[k])
    {
      assert Same(a[k], b[k]) && Same(b[k], c[k]);
    }
  }

  /** `a` is `n` or one of its ancestors. */
  predicate AncestorOrSelf(nodes: seq<TreeNode>, a: nat, n: nat)
    requires WellFormed(nodes) && n < |nodes|
    decreases n
  {
    if a == n then true
    else if n > 0 && nodes[n].Node? then
      assert ParentOk(nodes, n);
      AncestorOrSelf(nodes, a, nodes[n].parent.value)
    else false
  }

  /** Adding nodes changes no node's ancestors. */
  lemma {:induction false} AncestorExtends(a: seq<TreeNode>, b: seq<TreeNode>, x: nat, n: nat)
    requires WellFormed(a) && WellFormed(b) && Extends(a, b) && n < |a|
    ensures AncestorOrSelf(b, x, n) <==> AncestorOrSelf(a, x, n)
    decreases n
  {
    assert ParentOk(a, n) && Same(a[n], b[n]);
    if x != n && n > 0 && a[n].Node? {
      AncestorExtends(a, b, x, a[n].parent.value);
    }
  }

  /** `Node(enum, linedata, text)` made the child of `p` under id `id`: no
      footnotes, and a single text child when the text is non-empty. */
  function NewNodes(tok: Token, p: nat, id: nat): (r: seq<TreeNode>)
    ensures |r| == Size(tok) && r[0].Node? && r[0].footnotes == []
    ensures r[0].enum == tok.enum && r[0].linedata == tok.linedata && r[0].parent == Some(p)
    ensures HasText(tok.text) <==> r[0].children != []
    ensures HasText(tok.text) ==> r[0].children == [id + 1] && r[1] == TextNode(tok.text.value)
  {
    if HasText(tok.text) then [Node(tok.enum, tok.linedata, Some(p), [id + 1], []), TextNode(tok.text.value)]
    else [Node(tok.enum, tok.linedata, Some(p), [], [])]
  }

  /** How many arena entries a token's node takes. */
  function Size(tok: Token): nat
  {
    if HasText(tok.text) then 2 else 1
  }

  /** The tree after `_force_append` on node `p`. */
  function AddChild(nodes: seq<TreeNode>, p: nat, tok: Token): seq<TreeNode>
    requires p < |nodes| && nodes[p].Node?
  {
    nodes[p := nodes[p].(children := nodes[p].children + [|nodes|])] + NewNodes(tok, p, |nodes|)
  }

  /** Adding a child keeps the tree well formed and changes nothing else. */
  lemma AddChildOk(nodes: seq<TreeNode>, p: nat, tok: Token)
    requires WellFormed(nodes) && p < |nodes| && nodes[p].Node?
    ensures WellFormed(AddChild(nodes, p, tok)) && Extends(nodes, AddChild(nodes, p, tok))
    ensures ParentsTruthy(nodes) && Chain(nodes, p) ==> ParentsTruthy(AddChild(nodes, p, tok))
  {
    var b := AddChild(nodes, p, tok);
    var id := |nodes|;
    forall n | 0 <= n < |b|
      ensures ParentOk(b, n) && ChildrenOk(b, n)
    {
      if n < id {
        assert ParentOk(nodes, n) && ChildrenOk(nodes, n);
        if n == p {
          assert b[n].children == nodes[n].children + [id];
        }
      }
    }
    assert Extends(nodes, b);
  }

  // ---------------------------------------------------------------------------
  // The decision of `Node.append`
  // ---------------------------------------------------------------------------

  /** Where `append` puts a token: as a child of the node, as its sibling,
      by retrying at the parent, or by appending to the parent AND retrying
      at the parent (the missing `return` of the `self_enum is None` branch). */
  datatype Choice = Child | Sibling | Up | SiblingThenUp | Fail(error: string)

  /** The checks of `Node.append`, in the order the source makes them.
      `next` is what `stream.ahead(1)` gives. */
  function Choose(self: TreeNode, isRoot: bool, tok: Token, next: Result<Token>): Choice
    requires self.Node?
  {
    var e := tok.enum;
    var se := self.enum;
    if isRoot && Truthy(e) then Child
    else if e.None? then Child
    else if IsFirstInScheme(e.value.text) then
      if e.value.text == "i" || e.value.text == "I" then
        var before := if e.value.text == "i" then "h" else "H";
        var after := if e.value.text == "i" then "j" else "J";
        if se.None? then Fail(NoneText)
        else if se.value.text != before then Child
        else if next.Err? then Fail(next.error)
        else if next.value.enum.None? then Fail(NoneNext)
        else
          var c := EnumNext(next.value.enum.value, e.value);
          if c.Err? then Fail(c.error)
          else if c.value || next.value.enum.value.text == after then Sibling
          else Child
      else Child
    else if tok.wasNested then Child
    else if se.None? then SiblingThenUp
    else
      var c := EnumNext(e.value, se.value);
      if c.Err? then Fail(c.error) else if c.value then Sibling else Up
  }

  /** A token with no enum, or any token at the root when its enum is
      truthy, becomes a child; a first-in-scheme enum becomes a child unless
      it is an 'i' after 'h' (or 'I' after 'H'). */
  lemma ChooseChild(self: TreeNode, isRoot: bool, tok: Token, next: Result<Token>)
    requires self.Node?
    ensures (isRoot && Truthy(tok.enum)) || tok.enum.None? ==> Choose(self, isRoot, tok, next) == Child
    ensures tok.enum.Some? && IsFirstInScheme(tok.enum.value.text) && tok.enum.value.text !in {"i", "I"} ==>
      Choose(self, isRoot, tok, next) == Child
    ensures tok.enum.Some? && !IsFirstInScheme(tok.enum.value.text) && tok.wasNested ==>
      Choose(self, isRoot, tok, next) == Child
  {
  }

  /** Only an enum that is not first in a scheme and not nested ever moves up
      the tree, and never from the root when its enum is truthy. */
  lemma ChooseUp(self: TreeNode, isRoot: bool, tok: Token, next: Result<Token>)
    requires self.Node?
    requires Choose(self, isRoot, tok, next) in {Up, SiblingThenUp}
    ensures tok.enum.Some? && !IsFirstInScheme(tok.enum.value.text) && !tok.wasNested
    ensures !(isRoot && Truthy(tok.enum))
    ensures Choose(self, isRoot, tok, next) == SiblingThenUp <==> self.enum.None?
  {
  }

  /** The node under which `append` on node `self` finally puts the token:
      the checks run at `self`, and an `Up` or `SiblingThenUp` decision runs
      them again at the parent (`self.parent.append(token)`), up to a child or
      sibling decision, a failed check or a node without a parent. */
  function AppendTarget(nodes: seq<TreeNode>, self: nat, tok: Token, next: Result<Token>): (r: Result<nat>)
    requires WellFormed(nodes) && self < |nodes| && nodes[self].Node?
    ensures r.Ok? ==> r.value < |nodes| && nodes[r.value].Node? && AncestorOrSelf(nodes, r.value, self)
    decreases self
  {
    var ch := Choose(nodes[self], self == 0, tok, next);
    if ch.Fail? then Err(ch.error)
    else if ch == Child then Ok(self)
    else
      assert ParentOk(nodes, self);
      if nodes[self].parent.None? then Err(NoParent)
      else if ch == Sibling then Ok(nodes[self].parent.value)
      else AppendTarget(nodes, nodes[self].parent.value, tok, next)
  }

  /** The decision at `self` fixes the target for a child, a sibling or a
      failed check, and sends every other decision to the parent. */
  lemma AppendTargetCases(nodes: seq<TreeNode>, self: nat, tok: Token, next: Result<Token>)
    requires WellFormed(nodes) && self < |nodes| && nodes[self].Node?
    ensures ParentOk(nodes, self)
    ensures var ch := Choose(nodes[self], self == 0, tok, next);
      var r := AppendTarget(nodes, self, tok, next);
      (ch.Fail? ==> r == Err(ch.error)) &&
      (ch == Child ==> r == Ok(self)) &&
      (!ch.Fail? && ch != Child && nodes[self].parent.None? ==> r == Err(NoParent)) &&
      (ch == Sibling && nodes[self].parent.Some? ==> r == Ok(nodes[self].parent.value)) &&
      (ch in {Up, SiblingThenUp} && nodes[self].parent.Some? ==>
         nodes[nodes[self].parent.value].Node? &&
         r == AppendTarget(nodes, nodes[self].parent.value, tok, next))
  {
    assert ParentOk(nodes, self);
  }

  /** How a nested level closes: a token that is not next after the current
      node's enum but is next after its parent's becomes the parent's
      sibling, a child of the grandparent. */
  lemma ClimbToSibling(nodes: seq<TreeNode>, self: nat, parent: nat, tok: Token, next: Result<Token>)
    requires WellFormed(nodes) && self < |nodes| && nodes[self].Node? && nodes[self].parent == Some(parent)
    requires parent < |nodes| && nodes[parent].Node? && nodes[parent].parent.Some?
    requires Choose(nodes[self], self == 0, tok, next) == Up
    requires Choose(nodes[parent], parent == 0, tok, next) == Sibling
    ensures AppendTarget(nodes, self, tok, next) == Ok(nodes[parent].parent.value)
  {
    AppendTargetCases(nodes, self, tok, next);
    AppendTargetCases(nodes, parent, tok, next);
  }

  /** Adding nodes changes no target: the checks read only enums, and
      parents do not change. */
  lemma {:induction false} AppendTargetExtends(a: seq<TreeNode>, b: seq<TreeNode>, self: nat, tok: Token, next: Result<Token>)
    requires WellFormed(a) && WellFormed(b) && Extends(a, b) && self < |a| && a[self].Node?
    ensures AppendTarget(b, self, tok, next) == AppendTarget(a, self, tok, next)
    decreases self
  {
    assert Same(a[self], b[self]) && ParentOk(a, self);
    ChooseSameEnum(a[self], b[self], self == 0, tok, next);
    AppendTargetCases(a, self, tok, next);
    AppendTargetCases(b, self, tok, next);
    if a[self].parent.Some? {
      AppendTargetExtends(a, b, a[self].parent.value, tok, next);
    }
  }

  // ---------------------------------------------------------------------------
  // JSON
  // ---------------------------------------------------------------------------

  datatype Json = JNode(sub: seq<Json>) | JText(content: string, sub: seq<Json>)

  /** `json()`: a node's children in order; a text node has none here. */
  function ToJson(nodes: seq<TreeNode>, n: nat): (r: Json)
    requires WellFormed(nodes) && n < |nodes|
    ensures r.JText? <==> nodes[n].TextNode?
    ensures nodes[n].Node? ==> |r.sub| == |nodes[n].children|
    decreases |nodes| - n
  {
    match nodes[n]
    case TextNode(c) => JText(c, [])
    case Node(_, _, _, ch, _) =>
      assert ChildrenOk(nodes, n);
      JNode(seq(|ch|, k requires 0 <= k < |ch| => ToJson(nodes, ch[k])))
  }

  /** A node that comes after `p` renders the same once `p` has a new child. */
  lemma {:induction false} ToJsonFrame(nodes: seq<TreeNode>, p: nat, tok: Token, n: nat)
    requires WellFormed(nodes) && p < n < |nodes| && nodes[p].Node?
    requires WellFormed(AddChild(nodes, p, tok))
    ensures ToJson(AddChild(nodes, p, tok), n) == ToJson(nodes, n)
    decreases |nodes| - n
  {
    var b := AddChild(nodes, p, tok);
    assert b[n] == nodes[n];
    if nodes[n].Node? {
      var ch := nodes[n].children;
      assert ChildrenOk(nodes, n);
      forall k | 0 <= k < |ch|
        ensures ToJson(b, ch[k]) == ToJson(nodes, ch[k])
      {
        ToJsonFrame(nodes, p, tok, ch[k]);
      }
    }
  }

  /** After `_force_append` on `p`, the JSON of `p` has one more entry at
      the end, the new node's, and its earlier entries are unchanged. */
  lemma ToJsonAddChild(nodes: seq<TreeNode>, p: nat, tok: Token)
    requires WellFormed(nodes) && p < |nodes| && nodes[p].Node?
    ensures WellFormed(AddChild(nodes, p, tok))
    ensures ToJson(AddChild(nodes, p, tok), p).sub ==
            ToJson(nodes, p).sub + [ToJson(AddChild(nodes, p, tok), |nodes|)]
    ensures ToJson(AddChild(nodes, p, tok), |nodes|) ==
            if HasText(tok.text) then JNode([JText(tok.text.value, [])]) else JNode([])
  {
    AddChildOk(nodes, p, tok);
    var b := AddChild(nodes, p, tok);
    var ch := nodes[p].children;
    assert ChildrenOk(nodes, p);
    assert b[p].children == ch + [|nodes|];
    forall k | 0 <= k < |ch|
      ensures ToJson(b, ch[k]) == ToJson(nodes, ch[k])
    {
      ToJsonFrame(nodes, p, tok, ch[k]);
    }
    ToJsonNewNode(nodes, p, tok);
  }

  /** The new node renders as its text alone, or as nothing. */
  lemma ToJsonNewNode(nodes: seq<TreeNode>, p: nat, tok: Token)
    requires WellFormed(nodes) && p < |nodes| && nodes[p].Node?
    requires WellFormed(AddChild(nodes, p, tok))
    ensures ToJson(AddChild(nodes, p, tok), |nodes|) ==
            if HasText(tok.text) then JNode([JText(tok.text.value, [])]) else JNode([])
  {
    var b := AddChild(nodes, p, tok);
    if HasText(tok.text) {
      assert b[|nodes|].children == [|nodes| + 1];
      assert ToJson(b, |nodes| + 1) == JText(tok.text.value, []);
    }
  }

  // ---------------------------------------------------------------------------
  // Footnotes in the parser
  // ---------------------------------------------------------------------------

  /** A footnote line: code I with argument 28. */
  predicate IsNote(tok: Token)
  {
    tok.linedata.Some? && CodeArg(tok.linedata.value) == Ok("I28")
  }

  /** The footnote registered under `number`: its token and offset, and the
      note's text with the footnote prefix removed. */
  function NoteFor(number: string, text: string, footnotes: map<string, (nat, nat)>): (r: Result<(nat, Note)>)
    ensures r.Ok? <==> number in footnotes
    ensures r.Err? ==> r.error == KeyError(number)
    ensures r.Ok? ==> r.value.0 == footnotes[number].0 && r.value.1 == Note(footnotes[number].1, StripNote(text), number)
  {
    if number !in footnotes then Err(KeyError(number))
    else Ok((footnotes[number].0, Note(footnotes[number].1, StripNote(text), number)))
  }

  /** `token_to_note` as written: the footnote number is the single
      character `text[3]`. */
  function TokenToNoteAsWritten(tok: Token, footnotes: map<string, (nat, nat)>): (r: Result<(nat, Note)>)
    ensures r.Ok? ==> tok.text.Some? && |tok.text.value| >= 4 && tok.text.value[0] == '\U{7}'
    ensures r.Ok? ==> r.value.1.number == [tok.text.value[3]]
  {
    if tok.text.None? then Err(NotSubscriptable)
    else
      var text := tok.text.value;
      if |text| == 0 then Err(StringIndexError)
      else if text[0] != '\U{7}' then Err(NotANote)
      else if |text| < 4 then Err(StringIndexError)
      else NoteFor([text[3]], text, footnotes)
  }

  /** The footnote number of a note's text: all the digits of its prefix
      when the prefix is there, else the character `text[3]`. */
  function NoteNumber(text: string): (r: string)
    requires |text| >= 4
    ensures HasNotePrefix(text) ==> |r| >= 1 && AllDigits(r) && 3 + |r| < |text| && text[3..3 + |r|] == r && text[3 + |r|] == '\\'
    ensures !HasNotePrefix(text) ==> r == [text[3]]
  {
    if HasNotePrefix(text) then ParseNote(text).value.0 else [text[3]]
  }

  /** `token_to_note` with the whole footnote number. */
  function TokenToNote(tok: Token, footnotes: map<string, (nat, nat)>): (r: Result<(nat, Note)>)
    ensures r.Ok? ==> tok.text.Some? && |tok.text.value| >= 4 && tok.text.value[0] == '\U{7}'
    ensures r.Ok? ==> r.value.1.number == NoteNumber(tok.text.value) && r.value.1.number in footnotes
  {
    if tok.text.None? then Err(NotSubscriptable)
    else
      var text := tok.text.value;
      if |text| == 0 then Err(StringIndexError)
      else if text[0] != '\U{7}' then Err(NotANote)
      else if |text| < 4 then Err(StringIndexError)
      else NoteFor(NoteNumber(text), text, footnotes)
  }

  /** A note for footnote 12 is looked up under "1" as written, so it is
      not found even though footnote 12 was seen. */
  lemma NoteNumberFirstDigit(num: string, ws: string, rest: string, target: nat, offset: nat)
    requires |num| >= 2 && AllDigits(num)
    requires |ws| >= 1 && forall k :: 0 <= k < |ws| ==> IsSpace(ws[k])
    requires rest == [] || !IsSpace(rest[0])
    ensures TokenToNoteAsWritten(Token(None, false, Some(NoteLead + num + "\\" + ws + rest), None),
                                 map[num := (target, offset)]) == Err(KeyError([num[0]]))
  {
    var text := NoteLead + num + "\\" + ws + rest;
    assert text[0] == '\U{7}' && text[3] == num[0];
    assert [num[0]] != num by {
      assert |[num[0]]| != |num|;
    }
  }

  /** With the whole number the same note finds footnote 12, and its text
      is what follows the prefix. */
  lemma NoteNumberWhole(num: string, ws: string, rest: string, target: nat, offset: nat)
    requires |num| >= 1 && AllDigits(num)
    requires |ws| >= 1 && forall k :: 0 <= k < |ws| ==> IsSpace(ws[k])
    requires rest == [] || !IsSpace(rest[0])
    ensures TokenToNote(Token(None, false, Some(NoteLead + num + "\\" + ws + rest), None),
                        map[num := (target, offset)]) == Ok((target, Note(offset, rest, num)))
  {
    var text := NoteLead + num + "\\" + ws + rest;
    ParseNoteOf(num, ws, rest);
    assert text[0] == '\U{7}';
    assert NoteNumber(text) == num;
    assert StripNote(text) == rest;
  }

  /** As written, a note for footnote 12 goes to the node that refers to
      footnote 1 when that footnote was seen. */
  lemma NoteNumberMisfiled(num: string, ws: string, rest: string, footnotes: map<string, (nat, nat)>)
    requires |num| >= 2 && AllDigits(num) && [num[0]] in footnotes
    requires |ws| >= 1 && forall k :: 0 <= k < |ws| ==> IsSpace(ws[k])
    requires rest == [] || !IsSpace(rest[0])
    ensures TokenToNoteAsWritten(Token(None, false, Some(NoteLead + num + "\\" + ws + rest), None), footnotes)
      == Ok((footnotes[[num[0]]].0, Note(footnotes[[num[0]]].1, rest, [num[0]])))
  {
    var text := NoteLead + num + "\\" + ws + rest;
    ParseNoteOf(num, ws, rest);
    assert text[0] == '\U{7}' && text[3] == num[0];
    assert StripNote(text) == rest;
  }

  /** The note of a footnote line: looked up under its whole number, or
      under `text[3]` as `token_to_note` is written. */
  function NoteLookup(wholeNumber: bool, tok: Token, footnotes: map<string, (nat, nat)>): Result<(nat, Note)>
  {
    if wholeNumber then TokenToNote(tok, footnotes) else TokenToNoteAsWritten(tok, footnotes)
  }

  /** `self.footnotes[number] = (token, offset)` for each reference, in order. */
  function Record(m: map<string, (nat, nat)>, refs: seq<(string, nat)>, t: nat): (r: map<string, (nat, nat)>)
    ensures forall k :: 0 <= k < |refs| ==> refs[k].0 in r && r[refs[k].0].0 == t
    ensures forall n :: n in r ==> (n in m && r[n] == m[n]) || (r[n].0 == t && (n, r[n].1) in refs)
    decreases |refs|
  {
    if refs == [] then m
    else
      var prev := refs[..|refs| - 1];
      assert forall k :: 0 <= k < |prev| ==> prev[k] == refs[k];
      assert forall p :: p in prev ==> p in refs;
      Record(m, prev, t)[refs[|refs| - 1].0 := (t, refs[|refs| - 1].1)]
  }

  /** What `before_append` tells `parse`: go on to `append`, skip the token,
      or the node it was appended to. */
  datatype Before = NotHandled | Skipped | Handled(id: nat)

  /** An I32 or I17 line, which `before_append` puts beside an earlier node. */
  predicate GoesBeside(tok: Token)
  {
    tok.linedata.Some? && CodeArg(tok.linedata.value).Ok? &&
    (CodeArg(tok.linedata.value).value == "I32" || CodeArg(tok.linedata.value).value == "I17")
  }

  /** The current node of `parse` after token `u`: the token's node when
      it has one and its enum is truthy, else `current` again. */
  function NextCurrent(tokens: seq<Token>, tokenNode: map<nat, nat>, u: nat, current: nat): nat
    requires u < |tokens| && (!IsNote(tokens[u]) ==> u in tokenNode)
  {
    if !IsNote(tokens[u]) && Truthy(tokens[u].enum) then tokenNode[u] else current
  }

  /** Node `x` was put where `append` on node `self` puts the token `tok`:
      it is a child of the target. */
  predicate AppendedAt(nodes: seq<TreeNode>, x: nat, self: nat, tok: Token, next: Result<Token>)
    requires WellFormed(nodes) && x < |nodes| && self < |nodes| && nodes[self].Node?
  {
    var target := AppendTarget(nodes, self, tok, next);
    nodes[x].Node? && target.Ok? && nodes[x].parent == Some(target.value)
  }

  /** Growing the tree keeps where a node was appended. */
  lemma AppendedAtExtends(a: seq<TreeNode>, b: seq<TreeNode>, x: nat, self: nat, tok: Token, next: Result<Token>)
    requires WellFormed(a) && WellFormed(b) && Extends(a, b) && x < |a| && self < |a| && a[self].Node?
    requires AppendedAt(a, x, self, tok, next)
    ensures AppendedAt(b, x, self, tok, next)
  {
    assert Same(a[x], b[x]);
    AppendTargetExtends(a, b, self, tok, next);
  }

  /** The checks of `append` look at no more of the node than its enum. */
  lemma ChooseSameEnum(a: TreeNode, b: TreeNode, isRoot: bool, tok: Token, next: Result<Token>)
    requires a.Node? && b.Node? && a.enum == b.enum
    ensures Choose(a, isRoot, tok, next) == Choose(b, isRoot, tok, next)
  {
  }

  /** Token `u` of `parse`, run with `path[u]` as the current node: the
      current node moves as `NextCurrent` says, and a token that
      `before_append` leaves alone is appended by `append` on `path[u]`. */
  predicate Moved(nodes: seq<TreeNode>, tokenNode: map<nat, nat>, tokens: seq<Token>, path: seq<nat>, u: nat)
    requires WellFormed(nodes) && u < |tokens| && u + 1 < |path| && PlacedUpTo(nodes, tokenNode, tokens, u + 1)
  {
    path[u] < |nodes| && nodes[path[u]].Node? &&
    path[u + 1] == NextCurrent(tokens, tokenNode, u, path[u]) &&
    (!IsNote(tokens[u]) && !GoesBeside(tokens[u]) ==>
       AppendedAt(nodes, tokenNode[u], path[u], tokens[u], PyIndex(tokens, u + 1)))
  }

  /** `after_append` only adds a footnote: the tokens keep their nodes and
      the token just placed keeps where it went. */
  lemma AfterKept(a: seq<TreeNode>, b: seq<TreeNode>, tn: map<nat, nat>, tokens: seq<Token>,
                  t: nat, current: nat, next: Result<Token>)
    requires WellFormed(a) && WellFormed(b) && Extends(a, b) && t < |tokens| && current < |a| && a[current].Node?
    requires PlacedUpTo(a, tn, tokens, t) && (!IsNote(tokens[t]) ==> Placed(a, tn, tokens, t))
    requires !IsNote(tokens[t]) && !GoesBeside(tokens[t]) ==> AppendedAt(a, tn[t], current, tokens[t], next)
    ensures PlacedUpTo(b, tn, tokens, t + 1) && Same(a[current], b[current])
    ensures !IsNote(tokens[t]) && !GoesBeside(tokens[t]) ==> AppendedAt(b, tn[t], current, tokens[t], next)
  {
    PlacedKept(a, b, tn, tn, tokens, t);
    if !IsNote(tokens[t]) {
      PlacedOne(a, b, tn, tokens, t);
      if !GoesBeside(tokens[t]) {
        AppendedAtExtends(a, b, tn[t], current, tokens[t], next);
      }
    }
  }

  /** Later tokens keep what an earlier token's step did. */
  lemma MovedKept(a: seq<TreeNode>, b: seq<TreeNode>, tn: map<nat, nat>, tn': map<nat, nat>,
                  tokens: seq<Token>, path: seq<nat>, next: nat, u: nat, t: nat)
    requires WellFormed(a) && WellFormed(b) && Extends(a, b) && KeepsOthers(tn, tn', t)
    requires u < t < |tokens| && |path| == t + 1
    requires PlacedUpTo(a, tn, tokens, u + 1) && PlacedUpTo(b, tn', tokens, u + 1)
    requires Moved(a, tn, tokens, path, u)
    ensures Moved(b, tn', tokens, path + [next], u)
  {
    var p := path[u];
    assert (path + [next])[u] == p && (path + [next])[u + 1] == path[u + 1];
    assert Same(a[p], b[p]);
    if !IsNote(tokens[u]) {
      assert Placed(a, tn, tokens, u);
      if !GoesBeside(tokens[u]) {
        AppendedAtExtends(a, b, tn[u], p, tokens[u], PyIndex(tokens, u + 1));
      }
    }
  }

  /** One step of `parse` extends the path of current nodes by the node
      it moved to. */
  lemma StepMoved(a: seq<TreeNode>, b: seq<TreeNode>, tn: map<nat, nat>, tn': map<nat, nat>,
                  tokens: seq<Token>, path: seq<nat>, next: nat, t: nat)
    requires WellFormed(a) && WellFormed(b) && Extends(a, b) && KeepsOthers(tn, tn', t)
    requires t < |tokens| && |path| == t + 1 && path[t] < |a| && a[path[t]].Node?
    requires PlacedUpTo(a, tn, tokens, t) && PlacedUpTo(b, tn', tokens, t + 1)
    requires forall u :: 0 <= u < t ==> Moved(a, tn, tokens, path, u)
    requires next == NextCurrent(tokens, tn', t, path[t])
    requires !IsNote(tokens[t]) && !GoesBeside(tokens[t]) ==>
      AppendedAt(b, tn'[t], path[t], tokens[t], PyIndex(tokens, t + 1))
    ensures forall u :: 0 <= u <= t ==> Moved(b, tn', tokens, path + [next], u)
  {
    forall u | 0 <= u < t
      ensures Moved(b, tn', tokens, path + [next], u)
    {
      MovedKept(a, b, tn, tn', tokens, path, next, u, t);
    }
    var p := path[t];
    assert (path + [next])[t] == p && (path + [next])[t + 1] == next;
    assert Same(a[p], b[p]);
  }

  /** How many arena entries the nodes of the tokens take: footnote tokens
      get none. */
  function NodeCount(tokens: seq<Token>): nat
    decreases |tokens|
  {
    if tokens == [] then 0
    else NodeCount(tokens[..|tokens| - 1]) + (if IsNote(tokens[|tokens| - 1]) then 0 else Size(tokens[|tokens| - 1]))
  }

  /** Counting one more token adds that token's entries. */
  lemma NodeCountNext(tokens: seq<Token>, t: nat)
    requires t < |tokens|
    ensures NodeCount(tokens[..t + 1]) ==
      NodeCount(tokens[..t]) + (if IsNote(tokens[t]) then 0 else Size(tokens[t]))
  {
    assert tokens[..t + 1][..t] == tokens[..t];
  }

  /** The tree with `note` added to the footnotes of node `x`. */
  function WithNote(nodes: seq<TreeNode>, x: nat, note: Note): seq<TreeNode>
    requires x < |nodes| && nodes[x].Node?
  {
    nodes[x := nodes[x].(footnotes := nodes[x].footnotes + [note])]
  }

  /** Adding a footnote changes nothing of the tree's shape. */
  lemma WithNoteOk(nodes: seq<TreeNode>, x: nat, note: Note)
    requires WellFormed(nodes) && x < |nodes| && nodes[x].Node?
    ensures WellFormed(WithNote(nodes, x, note)) && Extends(nodes, WithNote(nodes, x, note))
    ensures |WithNote(nodes, x, note)| == |nodes|
    ensures ParentsTruthy(nodes) ==> ParentsTruthy(WithNote(nodes, x, note))
  {
    var b := WithNote(nodes, x, note);
    forall n | 0 <= n < |b|
      ensures ParentOk(b, n) && ChildrenOk(b, n)
    {
      assert ParentOk(nodes, n) && ChildrenOk(nodes, n);
    }
    assert Extends(nodes, b);
  }

  /** An ancestor comes no later than its descendant. */
  lemma {:induction false} AncestorBelow(nodes: seq<TreeNode>, a: nat, n: nat)
    requires WellFormed(nodes) && n < |nodes| && AncestorOrSelf(nodes, a, n)
    ensures a <= n
    decreases n
  {
    if a != n {
      assert ParentOk(nodes, n);
      AncestorBelow(nodes, a, nodes[n].parent.value);
    }
  }

  /** Token `u` has its node in the tree, carrying the token's enum. */
  predicate Placed(nodes: seq<TreeNode>, tokenNode: map<nat, nat>, tokens: seq<Token>, u: nat)
    requires u < |tokens|
  {
    u in tokenNode && tokenNode[u] < |nodes| && nodes[tokenNode[u]].Node? && nodes[tokenNode[u]].enum == tokens[u].enum
  }

  /** Every token before `t` that is not a footnote line has its node. */
  predicate PlacedUpTo(nodes: seq<TreeNode>, tokenNode: map<nat, nat>, tokens: seq<Token>, t: nat)
    requires t <= |tokens|
  {
    forall u :: 0 <= u < t && !IsNote(tokens[u]) ==> Placed(nodes, tokenNode, tokens, u)
  }

  /** The node of every token other than `t` is kept. */
  predicate KeepsOthers(tokenNode: map<nat, nat>, tokenNode': map<nat, nat>, t: nat)
  {
    forall x :: x in tokenNode && x != t ==> x in tokenNode' && tokenNode'[x] == tokenNode[x]
  }

  lemma KeepsOthersTrans(a: map<nat, nat>, b: map<nat, nat>, c: map<nat, nat>, t: nat)
    requires KeepsOthers(a, b, t) && KeepsOthers(b, c, t)
    ensures KeepsOthers(a, c, t)
  {
  }

  lemma PlacedOne(a: seq<TreeNode>, b: seq<TreeNode>, tokenNode: map<nat, nat>, tokens: seq<Token>, u: nat)
    requires u < |tokens| && Extends(a, b) && Placed(a, tokenNode, tokens, u)
    ensures Placed(b, tokenNode, tokens, u)
  {
    assert Same(a[tokenNode[u]], b[tokenNode[u]]);
  }

  /** Growing the tree and keeping the other tokens' nodes keeps every
      earlier token placed. */
  lemma PlacedKept(a: seq<TreeNode>, b: seq<TreeNode>, tn: map<nat, nat>, tn': map<nat, nat>, tokens: seq<Token>, t: nat)
    requires t <= |tokens| && Extends(a, b) && KeepsOthers(tn, tn', t) && PlacedUpTo(a, tn, tokens, t)
    ensures PlacedUpTo(b, tn', tokens, t)
  {
    forall u | 0 <= u < t && !IsNote(tokens[u])
      ensures Placed(b, tn', tokens, u)
    {
      assert Placed(a, tn, tokens, u);
      PlacedOne(a, b, tn, tokens, u);
    }
  }

  // ---------------------------------------------------------------------------
  // The parser
  // ---------------------------------------------------------------------------

  /** `GPOLocatorParser`: the arena, the stream, each token's node
      (`token.node`, by the token's place in the stream), the latest token
      per code-argument and the token and offset of each footnote number. */
  class Parser {
    var nodes: seq<TreeNode>
    const stream: Stream
    var tokenNode: map<nat, nat>
    var codemap: map<string, nat>
    var footnotes: map<string, (nat, nat)>
    const wholeNumber: bool

    ghost predicate Valid()
      reads this
    {
      WellFormed(nodes) &&
      (forall t :: t in tokenNode ==> 0 < tokenNode[t] < |nodes| && nodes[tokenNode[t]].Node?) &&
      (forall c :: c in codemap ==> codemap[c] < |stream.tokens|) &&
      (forall n :: n in footnotes ==> footnotes[n].0 < |stream.tokens|)
    }

    /** `Parser.__init__` and `GPOLocatorParser.__init__`: a root alone.
        `wholeNumber` picks the note lookup of `after_append`: by the whole
        footnote number, or by `text[3]` as the source does. */
    constructor (tokens: seq<Token>, wholeNumber: bool)
      ensures Valid() && ParentsTruthy(nodes) && fresh(stream)
      ensures stream.tokens == tokens && stream.i == 0 && this.wholeNumber == wholeNumber
      ensures nodes == [Root] && tokenNode == map[] && codemap == map[] && footnotes == map[]
    {
      this.wholeNumber := wholeNumber;
      stream := new Stream(tokens);
      nodes := [Root];
      tokenNode := map[];
      codemap := map[];
      footnotes := map[];
    }

    /** `_force_append`: one new child at the end of node `p`, which becomes
        the token's node. */
    method ForceAppend(p: nat, t: nat) returns (id: nat)
      requires Valid() && p < |nodes| && nodes[p].Node? && t < |stream.tokens|
      modifies this`nodes, this`tokenNode
      ensures Valid() && id == old(|nodes|) && Extends(old(nodes), nodes)
      ensures nodes == AddChild(old(nodes), p, stream.tokens[t])
      ensures tokenNode == old(tokenNode)[t := id] && Placed(nodes, tokenNode, stream.tokens, t)
      ensures old(ParentsTruthy(nodes)) && old(Chain(nodes, p)) ==> ParentsTruthy(nodes)
    {
      AddChildOk(nodes, p, stream.tokens[t]);
      id := |nodes|;
      nodes := AddChild(nodes, p, stream.tokens[t]);
      tokenNode := tokenNode[t := id];
    }

    /** `Node.append` on node `self`: the checks pick where the token goes. */
    method Append(self: nat, t: nat) returns (r: Result<nat>)
      requires Valid() && self < |nodes| && nodes[self].Node? && t < |stream.tokens|
      modifies this`nodes, this`tokenNode
      ensures Valid() && Extends(old(nodes), nodes) && KeepsOthers(old(tokenNode), tokenNode, t)
      ensures r.Ok? ==> old(|nodes|) <= r.value < |nodes| && Placed(nodes, tokenNode, stream.tokens, t) &&
                        tokenNode[t] == r.value
      ensures var target := AppendTarget(old(nodes), self, stream.tokens[t], stream.Ahead(1));
        (r.Ok? <==> target.Ok?) && (r.Err? ==> r.error == target.error) &&
        (r.Ok? ==> nodes[r.value].parent == Some(target.value))
      ensures var ch := Choose(old(nodes)[self], self == 0, stream.tokens[t], stream.Ahead(1));
        (ch == Child ==> r == Ok(old(|nodes|))) &&
        (ch == Sibling && old(nodes)[self].parent.Some? ==>
           r == Ok(old(|nodes|))) &&
        (ch != Child && old(nodes)[self].parent.None? ==> nodes == old(nodes)) &&
        (ch.Fail? ==> nodes == old(nodes))
      ensures old(ParentsTruthy(nodes)) && old(Chain(nodes, self)) ==>
        ParentsTruthy(nodes) && (r.Ok? ==> |nodes| == old(|nodes|) + Size(stream.tokens[t]))
      decreases self, 2
    {
      var ch := Choose(nodes[self], self == 0, stream.tokens[t], stream.Ahead(1));
      AppendTargetCases(nodes, self, stream.tokens[t], stream.Ahead(1));
      r := Place(self, t, ch);
    }

    /** What `append` does once the checks chose `ch`. */
    method Place(self: nat, t: nat, ch: Choice) returns (r: Result<nat>)
      requires Valid() && self < |nodes| && nodes[self].Node? && t < |stream.tokens|
      requires ch == Choose(nodes[self], self == 0, stream.tokens[t], stream.Ahead(1))
      modifies this`nodes, this`tokenNode
      ensures Valid() && Extends(old(nodes), nodes) && KeepsOthers(old(tokenNode), tokenNode, t)
      ensures r.Ok? ==> old(|nodes|) <= r.value < |nodes| && Placed(nodes, tokenNode, stream.tokens, t) &&
                        tokenNode[t] == r.value
      ensures var target := AppendTarget(old(nodes), self, stream.tokens[t], stream.Ahead(1));
        (r.Ok? <==> target.Ok?) && (r.Err? ==> r.error == target.error) &&
        (r.Ok? ==> nodes[r.value].parent == Some(target.value))
      ensures ch == Child ==> r == Ok(old(|nodes|))
      ensures ch == Sibling && old(nodes)[self].parent.Some? ==> r == Ok(old(|nodes|))
      ensures ch != Child && old(nodes)[self].parent.None? ==> nodes == old(nodes)
      ensures ch.Fail? ==> nodes == old(nodes)
      ensures old(ParentsTruthy(nodes)) && old(Chain(nodes, self)) ==>
        ParentsTruthy(nodes) && (r.Ok? ==> |nodes| == old(|nodes|) + Size(stream.tokens[t]))
      decreases self, 1
    {
      AppendTargetCases(nodes, self, stream.tokens[t], stream.Ahead(1));
      if ch.Fail? {
        return Err(ch.error);
      }
      if ch == Child {
        var id := ForceAppend(self, t);
        return Ok(id);
      }
      assert ParentOk(nodes, self);
      var parent := nodes[self].parent;
      if parent.None? {
        return Err(NoParent);
      }
      if ch == Sibling {
        var id := ForceAppend(parent.value, t);
        return Ok(id);
      }
      ChooseUp(nodes[self], self == 0, stream.tokens[t], stream.Ahead(1));
      r := Climb(self, parent.value, t, ch == SiblingThenUp);
    }

    /** `append` retried at `parent`, the parent of `self`, after first
        appending the token to that parent when `sibling` holds. */
    method Climb(self: nat, parent: nat, t: nat, sibling: bool) returns (r: Result<nat>)
      requires Valid() && self < |nodes| && nodes[self].Node? && t < |stream.tokens|
      requires nodes[self].parent == Some(parent) && parent < |nodes| && nodes[parent].Node?
      requires sibling ==> nodes[self].enum.None?
      modifies this`nodes, this`tokenNode
      ensures Valid() && Extends(old(nodes), nodes) && KeepsOthers(old(tokenNode), tokenNode, t)
      ensures r.Ok? ==> old(|nodes|) <= r.value < |nodes| && Placed(nodes, tokenNode, stream.tokens, t) &&
                        tokenNode[t] == r.value
      ensures var target := AppendTarget(old(nodes), parent, stream.tokens[t], stream.Ahead(1));
        (r.Ok? <==> target.Ok?) && (r.Err? ==> r.error == target.error) &&
        (r.Ok? ==> nodes[r.value].parent == Some(target.value))
      ensures old(ParentsTruthy(nodes)) && old(Chain(nodes, self)) ==>
        ParentsTruthy(nodes) && (r.Ok? ==> |nodes| == old(|nodes|) + Size(stream.tokens[t]))
      decreases self, 0
    {
      assert ParentOk(nodes, self);
      ghost var before, tn0 := nodes, tokenNode;
      if sibling {
        var _ := ForceAppend(parent, t);
      }
      ghost var mid, tn1 := nodes, tokenNode;
      r := Append(parent, t);
      ExtendsTrans(before, mid, nodes);
      KeepsOthersTrans(tn0, tn1, tokenNode, t);
      AppendTargetExtends(before, mid, parent, stream.tokens[t], stream.Ahead(1));
    }

    /** The I32 and I17 lines: the token goes beside the node of the latest
        line with code `key`. */
    method Beside(key: string, t: nat) returns (r: Result<nat>)
      requires Valid() && t < |stream.tokens|
      modifies this`nodes, this`tokenNode
      ensures Valid() && Extends(old(nodes), nodes) && KeepsOthers(old(tokenNode), tokenNode, t)
      ensures key !in codemap ==> r == Err(KeyError(key))
      ensures key in codemap && codemap[key] !in old(tokenNode) ==> r == Err(NoNode)
      ensures r.Err? ==> nodes == old(nodes) && tokenNode == old(tokenNode)
      ensures r.Ok? ==>
        key in codemap && codemap[key] in old(tokenNode) &&
        r.value == old(|nodes|) && |nodes| == old(|nodes|) + Size(stream.tokens[t]) &&
        Placed(nodes, tokenNode, stream.tokens, t) && tokenNode[t] == r.value &&
        nodes[r.value].parent == old(nodes)[old(tokenNode)[codemap[key]]].parent
      ensures old(ParentsTruthy(nodes)) ==> ParentsTruthy(nodes)
    {
      if key !in codemap {
        return Err(KeyError(key));
      }
      if codemap[key] !in tokenNode {
        return Err(NoNode);
      }
      var node := tokenNode[codemap[key]];
      assert ParentOk(nodes, node);
      var id := ForceAppend(nodes[node].parent.value, t);
      return Ok(id);
    }

    /** Each footnote reference of the token's text is recorded under its
        number, with the token and the reference's offset. */
    method RecordRefs(t: nat, refs: seq<(string, nat)>)
      requires Valid() && t < |stream.tokens|
      modifies this`footnotes
      ensures Valid() && footnotes == Record(old(footnotes), refs, t)
    {
      var k := 0;
      while k < |refs|
        invariant 0 <= k <= |refs|
        invariant footnotes == Record(old(footnotes), refs[..k], t)
        invariant Valid()
      {
        assert refs[..k + 1][..k] == refs[..k];
        footnotes := footnotes[refs[k].0 := (t, refs[k].1)];
        k := k + 1;
      }
      assert refs[..k] == refs;
    }

    /** `before_append`: record the token under its code-argument; put an
        I32 line beside the latest I13 node and an I17 line beside the latest
        I12 node; skip an I28 footnote line; otherwise record the footnote
        references in the token's text. */
    method BeforeAppend(t: nat) returns (r: Result<Before>)
      requires Valid() && t < |stream.tokens|
      modifies this
      ensures Valid() && Extends(old(nodes), nodes) && KeepsOthers(old(tokenNode), tokenNode, t)
      ensures var tok := stream.tokens[t];
        (tok.linedata.Some? && CodeArg(tok.linedata.value).Err? ==> r == Err(NoneConcat)) &&
        (tok.linedata.Some? && CodeArg(tok.linedata.value).Ok? ==>
           codemap == old(codemap)[CodeArg(tok.linedata.value).value := t]) &&
        (tok.linedata.None? ==> codemap == old(codemap))
      ensures r.Ok? ==> (r.value == Skipped <==> IsNote(stream.tokens[t]))
      ensures r.Ok? ==> (r.value.Handled? <==> GoesBeside(stream.tokens[t]))
      ensures r.Ok? && r.value.Handled? ==>
        Placed(nodes, tokenNode, stream.tokens, t) && tokenNode[t] == r.value.id &&
        |nodes| == old(|nodes|) + Size(stream.tokens[t])
      ensures r.Ok? && !r.value.Handled? ==> nodes == old(nodes) && tokenNode == old(tokenNode)
      ensures r == Ok(NotHandled) && HasText(stream.tokens[t].text) ==>
        footnotes == Record(old(footnotes), FootnoteRefs(stream.tokens[t].text.value), t)
      ensures r.Ok? && (r.value != NotHandled || !HasText(stream.tokens[t].text)) ==> footnotes == old(footnotes)
      ensures old(ParentsTruthy(nodes)) ==> ParentsTruthy(nodes)
    {
      var tok := stream.tokens[t];
      if tok.linedata.Some? {
        var codearg := CodeArg(tok.linedata.value);
        if codearg.Err? {
          return Err(codearg.error);
        }
        codemap := codemap[codearg.value := t];
        if codearg.value == "I32" || codearg.value == "I17" {
          assert GoesBeside(tok) && !IsNote(tok);
          var id := Beside(if codearg.value == "I32" then "I13" else "I12", t);
          if id.Err? {
            return Err(id.error);
          }
          return Ok(Handled(id.value));
        }
        if codearg.value == "I28" {
          return Ok(Skipped);
        }
      }
      assert !GoesBeside(tok) && !IsNote(tok);
      if HasText(tok.text) {
        RecordRefs(t, FootnoteRefs(tok.text.value));
      }
      return Ok(NotHandled);
    }

    /** `after_append`: a footnote line's note goes to the footnotes of the
        node whose text referred to it. */
    method AfterAppend(t: nat) returns (r: Result<()>)
      requires Valid() && t < |stream.tokens|
      modifies this`nodes
      ensures Valid() && Extends(old(nodes), nodes) && |nodes| == old(|nodes|)
      ensures old(ParentsTruthy(nodes)) ==> ParentsTruthy(nodes)
      ensures var tok := stream.tokens[t];
        !IsNote(tok) && (tok.linedata.None? || CodeArg(tok.linedata.value).Ok?) ==> r == Ok(()) && nodes == old(nodes)
      ensures r.Ok? && IsNote(stream.tokens[t]) ==>
        var note := NoteLookup(wholeNumber, stream.tokens[t], footnotes);
        note.Ok? && note.value.0 in tokenNode &&
        nodes == WithNote(old(nodes), tokenNode[note.value.0], note.value.1)
    {
      var tok := stream.tokens[t];
      if tok.linedata.None? {
        return Ok(());
      }
      var codearg := CodeArg(tok.linedata.value);
      if codearg.Err? {
        return Err(codearg.error);
      }
      if codearg.value != "I28" {
        return Ok(());
      }
      var note := NoteLookup(wholeNumber, tok, footnotes);
      if note.Err? {
        return Err(note.error);
      }
      if note.value.0 !in tokenNode {
        return Err(NoNode);
      }
      var x := tokenNode[note.value.0];
      WithNoteOk(nodes, x, note.value.1);
      nodes := WithNote(nodes, x, note.value.1);
      return Ok(());
    }

    /** `append` on the current node for a token `before_append` left
        alone; the earlier tokens keep their nodes. */
    method Attach(current: nat, t: nat) returns (r: Result<nat>)
      requires Valid() && ParentsTruthy(nodes) && t < |stream.tokens|
      requires current < |nodes| && nodes[current].Node? && Chain(nodes, current)
      requires PlacedUpTo(nodes, tokenNode, stream.tokens, t)
      modifies this`nodes, this`tokenNode
      ensures Valid() && ParentsTruthy(nodes) && Extends(old(nodes), nodes)
      ensures PlacedUpTo(nodes, tokenNode, stream.tokens, t)
      ensures KeepsOthers(old(tokenNode), tokenNode, t)
      ensures r.Ok? ==>
        |nodes| == old(|nodes|) + Size(stream.tokens[t]) &&
        Placed(nodes, tokenNode, stream.tokens, t) && tokenNode[t] == r.value
      ensures AppendTarget(old(nodes), current, stream.tokens[t], stream.Ahead(1)).Err? ==> r.Err?
      ensures r.Ok? ==> AppendedAt(nodes, r.value, current, stream.tokens[t], stream.Ahead(1))
    {
      ghost var n1, tn1 := nodes, tokenNode;
      r := Append(current, t);
      PlacedKept(n1, nodes, tn1, tokenNode, stream.tokens, t);
      AppendTargetExtends(n1, nodes, current, stream.tokens[t], stream.Ahead(1));
    }

    /** The first half of one token of `Parser.parse`: `before_append`,
        then, when not handled there, `append` on the current node. */
    method PlaceToken(current: nat, t: nat) returns (r: Result<Before>)
      requires Valid() && ParentsTruthy(nodes) && t < |stream.tokens|
      requires current < |nodes| && nodes[current].Node? && Chain(nodes, current)
      requires PlacedUpTo(nodes, tokenNode, stream.tokens, t)
      modifies this
      ensures Valid() && ParentsTruthy(nodes) && Extends(old(nodes), nodes)
      ensures nodes[current].Node? && Chain(nodes, current)
      ensures r.Ok? ==> r.value != NotHandled && (r.value == Skipped <==> IsNote(stream.tokens[t]))
      ensures r.Ok? ==> PlacedUpTo(nodes, tokenNode, stream.tokens, t)
      ensures r.Ok? && r.value.Handled? ==>
        Placed(nodes, tokenNode, stream.tokens, t) && tokenNode[t] == r.value.id &&
        |nodes| == old(|nodes|) + Size(stream.tokens[t])
      ensures r.Ok? && r.value == Skipped ==> |nodes| == old(|nodes|)
      ensures KeepsOthers(old(tokenNode), tokenNode, t)
      ensures !IsNote(stream.tokens[t]) && !GoesBeside(stream.tokens[t]) ==>
        (AppendTarget(old(nodes), current, stream.tokens[t], stream.Ahead(1)).Err? ==> r.Err?) &&
        (r.Ok? ==> AppendedAt(nodes, tokenNode[t], current, stream.tokens[t], stream.Ahead(1)))
    {
      ghost var n0, tn0 := nodes, tokenNode;
      r := BeforeAppend(t);
      if r.Err? {
        return;
      }
      PlacedKept(n0, nodes, tn0, tokenNode, stream.tokens, t);
      assert Same(n0[current], nodes[current]);
      if r.value == NotHandled {
        ghost var n1 := nodes;
        ghost var tn1 := tokenNode;
        var a := Attach(current, t);
        ExtendsTrans(n0, n1, nodes);
        KeepsOthersTrans(tn0, tn1, tokenNode, t);
        assert Same(n1[current], nodes[current]);
        if a.Err? {
          return Err(a.error);
        }
        r := Ok(Handled(a.value));
      }
    }

    /** One token of `Parser.parse`: `before_append`, then (when not
        handled there) `append` on the current node, then `after_append`;
        the current node moves to the appended node when its enum is
        truthy. */
    method Step(current: nat, t: nat) returns (r: Result<nat>)
      requires Valid() && ParentsTruthy(nodes) && t < |stream.tokens|
      requires current < |nodes| && nodes[current].Node? && Chain(nodes, current)
      requires PlacedUpTo(nodes, tokenNode, stream.tokens, t)
      modifies this
      ensures Valid() && ParentsTruthy(nodes) && Extends(old(nodes), nodes)
      ensures r.Ok? ==> r.value < |nodes| && nodes[r.value].Node? && Chain(nodes, r.value)
      ensures r.Ok? ==> |nodes| == old(|nodes|) + (if IsNote(stream.tokens[t]) then 0 else Size(stream.tokens[t]))
      ensures r.Ok? ==> PlacedUpTo(nodes, tokenNode, stream.tokens, t + 1)
      ensures KeepsOthers(old(tokenNode), tokenNode, t)
      ensures r.Ok? ==> r.value == NextCurrent(stream.tokens, tokenNode, t, current)
      ensures !IsNote(stream.tokens[t]) && !GoesBeside(stream.tokens[t]) ==>
        (AppendTarget(old(nodes), current, stream.tokens[t], stream.Ahead(1)).Err? ==> r.Err?) &&
        (r.Ok? ==> AppendedAt(nodes, tokenNode[t], current, stream.tokens[t], stream.Ahead(1)))
    {
      ghost var n0 := nodes;
      var placed := PlaceToken(current, t);
      if placed.Err? {
        return Err(placed.error);
      }
      ghost var n2 := nodes;
      var after := AfterAppend(t);
      ExtendsTrans(n0, n2, nodes);
      if after.Err? {
        return Err(after.error);
      }
      AfterKept(n2, nodes, tokenNode, stream.tokens, t, current, stream.Ahead(1));
      r := Ok(current);
      if placed.value.Handled? && Truthy(nodes[placed.value.id].enum) {
        r := Ok(placed.value.id);
      }
    }

    /** `Parser.parse`: every token in turn, starting at the root as the
        current node; the result is the root. `path[u]` is the current node
        when token `u` is read. */
    method Parse() returns (r: Result<nat>, ghost path: seq<nat>)
      requires Valid() && ParentsTruthy(nodes)
      modifies this, stream
      ensures Valid() && Extends(old(nodes), nodes)
      ensures r.Ok? ==> r.value == 0
      ensures r.Ok? ==> |nodes| == old(|nodes|) + NodeCount(stream.tokens)
      ensures r.Ok? ==> PlacedUpTo(nodes, tokenNode, stream.tokens, |stream.tokens|)
      ensures r.Ok? ==>
        |path| == |stream.tokens| + 1 && path[0] == 0 &&
        forall u :: 0 <= u < |stream.tokens| ==> Moved(nodes, tokenNode, stream.tokens, path, u)
    {
      var current: nat := 0;
      var t := 0;
      path := [0];
      while t < |stream.tokens|
        invariant 0 <= t <= |stream.tokens|
        invariant Valid() && ParentsTruthy(nodes) && Extends(old(nodes), nodes)
        invariant current < |nodes| && nodes[current].Node? && Chain(nodes, current)
        invariant |nodes| == old(|nodes|) + NodeCount(stream.tokens[..t])
        invariant PlacedUpTo(nodes, tokenNode, stream.tokens, t)
        invariant |path| == t + 1 && path[0] == 0 && path[t] == current
        invariant forall u :: 0 <= u < t ==> Moved(nodes, tokenNode, stream.tokens, path, u)
      {
        stream.i := t;
        ghost var n0, tn0 := nodes, tokenNode;
        var next := Step(current, t);
        ExtendsTrans(old(nodes), n0, nodes);
        if next.Err? {
          return Err(next.error), path;
        }
        assert stream.Ahead(1) == PyIndex(stream.tokens, t + 1);
        StepMoved(n0, nodes, tn0, tokenNode, stream.tokens, path, next.value, t);
        current := next.value;
        path := path + [current];
        NodeCountNext(stream.tokens, t);
        t := t + 1;
      }
      assert stream.tokens[..t] == stream.tokens;
      return Ok(0), path;
    }
  }
}
