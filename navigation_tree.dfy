/** The inline navigation tree's callback handler: it reads the ids the
    buttons carry, recovers the current subject, section, year, lecturer and
    lecture from the stack, and pushes or pops nodes, undoing the change
    when the new view cannot be shown. */
module NavTree {
  import opened Wrappers
  import Seqs
  import Text
  import Callbacks
  import opened NavStacks
  import NavMenu

  // ----- `_parse_id` --------------------------------------------------------

  /** `int(p) if p.isdigit() else p`. */
  function ParsePart(p: string): (r: Scalar)
    ensures r.IntVal? <==> Text.IsDecimal(p)
    ensures r.TextVal? ==> r.s == p
  {
    if Text.IsDecimal(p) then IntVal(Text.DigitsValue(p)) else TextVal(p)
  }

  /** `_parse_id`: `:` read as `-`, the pieces between dashes parsed, a
      single piece returned alone and several as a tuple. */
  function ParseId(value: string): (r: Ident)
    ensures r.Atom? || (r.Parts? && |r.parts| >= 2)
  {
    var parts := Callbacks.Split(Text.ReplaceChar(value, ':', '-'), '-');
    if |parts| == 1 then Atom(ParsePart(parts[0])) else Parts(Seqs.Map(parts, ParsePart))
  }

  lemma NoColonUnchanged(s: string)
    requires ':' !in s
    ensures Text.ReplaceChar(s, ':', '-') == s
  {
  }

  lemma {:induction false} JoinAvoids(parts: seq<string>, sep: char, c: char)
    requires c != sep
    requires forall i :: 0 <= i < |parts| ==> c !in parts[i]
    ensures c !in Text.Join([sep], parts)
    decreases |parts|
  {
    if |parts| > 1 {
      JoinAvoids(parts[1..], sep, c);
    }
  }

  /** Pieces without dashes or colons, joined by dashes, parse piece by
      piece. */
  lemma ParseIdJoin(parts: seq<string>)
    requires |parts| > 0
    requires forall i :: 0 <= i < |parts| ==> '-' !in parts[i] && ':' !in parts[i]
    ensures ParseId(Text.Join("-", parts))
         == if |parts| == 1 then Atom(ParsePart(parts[0])) else Parts(Seqs.Map(parts, ParsePart))
  {
    JoinAvoids(parts, '-', ':');
    NoColonUnchanged(Text.Join("-", parts));
    Callbacks.SplitJoin(parts, '-');
  }

  /** A colon separates pieces exactly as a dash does. */
  lemma ColonIsDash(a: string, b: string)
    ensures ParseId(a + ":" + b) == ParseId(a + "-" + b)
  {
    var colon, dash := a + ":" + b, a + "-" + b;
    assert |colon| == |dash|;
    forall i | 0 <= i < |colon| ensures colon[i] == dash[i] || (colon[i] == ':' && dash[i] == '-') {
      if i < |a| {
        assert colon[i] == a[i] == dash[i];
      } else if i > |a| {
        assert colon[i] == b[i - |a| - 1] == dash[i];
      }
    }
    assert Text.ReplaceChar(colon, ':', '-') == Text.ReplaceChar(dash, ':', '-');
  }

  /** A natural number's numeral parses back as that number. */
  lemma NumeralPart(n: nat)
    ensures ParsePart(Text.IntToString(n)) == IntVal(n)
    ensures '-' !in Text.IntToString(n) && ':' !in Text.IntToString(n)
  {
    var r := Text.IntToString(n);
    forall k | 0 <= k < |r| ensures r[k] != '-' && r[k] != ':' {
      assert Text.IsDigit(r[k]);
    }
  }

  /** The `"{section}-{item type}"` id of an item-type button parses as the
      pair of ids. */
  lemma ItemTypeIdentParses(sectionId: nat, t: NavMenu.T.LinkView)
    requires t.id >= 0
    ensures ParseId(NavMenu.ItemTypeButton(sectionId, t).ident) == Parts([IntVal(sectionId), IntVal(t.id)])
  {
    var a := Text.IntToString(sectionId);
    var b := Text.IntToString(t.id);
    NumeralPart(sectionId);
    NumeralPart(t.id);
    ParseIdTwo(a, b);
  }

  /** A lone number or word is returned as itself: `"5"` is `5`, `"abc"`
      stays `"abc"`. */
  lemma ParseIdSingle()
    ensures ParseId("5") == Atom(IntVal(5))
    ensures ParseId("abc") == Atom(TextVal("abc"))
  {
    ParseIdJoin(["5"]);
    ParseIdJoin(["abc"]);
    assert !Text.IsDecimal("abc") by { assert !Text.IsDigit("abc"[0]); }
  }

  /** Two pieces joined by a dash or a colon are the pair of the parsed
      pieces: `"1-2"` is `(1, 2)` and `"123-theory"` is `(123, "theory")`. */
  lemma ParseIdTwo(a: string, b: string)
    requires '-' !in a && ':' !in a && '-' !in b && ':' !in b
    ensures ParseId(a + "-" + b) == Parts([ParsePart(a), ParsePart(b)])
    ensures ParseId(a + ":" + b) == Parts([ParsePart(a), ParsePart(b)])
  {
    assert Text.Join("-", [a, b]) == a + "-" + b;
    ParseIdJoin([a, b]);
    assert Seqs.Map([a, b], ParsePart) == [ParsePart(a), ParsePart(b)];
    ColonIsDash(a, b);
  }

  // ----- `_extract_state` ---------------------------------------------------

  /** The ident of the last node of `kind` on the stack, `None` when there
      is none. */
  function LastOfKind(nodes: seq<Node>, kind: string): (r: Ident)
    ensures (forall i :: 0 <= i < |nodes| ==> nodes[i].kind != kind) ==> r == NoIdent
    ensures (exists i :: 0 <= i < |nodes| && nodes[i].kind == kind) ==>
      exists i :: 0 <= i < |nodes| && nodes[i].kind == kind && r == nodes[i].ident
        && forall j :: i < j < |nodes| ==> nodes[j].kind != kind
  {
    if nodes == [] then NoIdent
    else if nodes[|nodes| - 1].kind == kind then nodes[|nodes| - 1].ident
    else
      var init := nodes[..|nodes| - 1];
      var r := LastOfKind(init, kind);
      LastOfKindLift(nodes, kind, r);
      r
  }

  /** What holds of the stack without its top node holds of the stack,
      when the top node is of another kind. */
  lemma LastOfKindLift(nodes: seq<Node>, kind: string, r: Ident)
    requires nodes != [] && nodes[|nodes| - 1].kind != kind
    requires var init := nodes[..|nodes| - 1];
      ((forall i :: 0 <= i < |init| ==> init[i].kind != kind) ==> r == NoIdent)
      && ((exists i :: 0 <= i < |init| && init[i].kind == kind) ==>
            exists i :: 0 <= i < |init| && init[i].kind == kind && r == init[i].ident
              && forall j :: i < j < |init| ==> init[j].kind != kind)
    ensures (forall i :: 0 <= i < |nodes| ==> nodes[i].kind != kind) ==> r == NoIdent
    ensures (exists i :: 0 <= i < |nodes| && nodes[i].kind == kind) ==>
      exists i :: 0 <= i < |nodes| && nodes[i].kind == kind && r == nodes[i].ident
        && forall j :: i < j < |nodes| ==> nodes[j].kind != kind
  {
    var init := nodes[..|nodes| - 1];
    if exists k :: 0 <= k < |nodes| && nodes[k].kind == kind {
      var k :| 0 <= k < |nodes| && nodes[k].kind == kind;
      assert init[k] == nodes[k];
      var i :| 0 <= i < |init| && init[i].kind == kind && r == init[i].ident
        && forall j :: i < j < |init| ==> init[j].kind != kind;
      assert init[i] == nodes[i];
      forall j | i < j < |nodes| ensures nodes[j].kind != kind {
        if j < |init| {
          assert init[j] == nodes[j];
        }
      }
    } else {
      forall i | 0 <= i < |init| ensures init[i].kind != kind {
        assert init[i] == nodes[i];
      }
    }
  }

  /** One more node changes the answer only for its own kind. */
  lemma LastOfKindSnoc(nodes: seq<Node>, x: Node, kind: string)
    ensures LastOfKind(nodes + [x], kind) == if x.kind == kind then x.ident else LastOfKind(nodes, kind)
  {
    assert (nodes + [x])[..|nodes|] == nodes;
  }

  /** The five values `_extract_state` returns. */
  datatype Extracted = Extracted(subject: Ident, section: Ident, year: Ident, lecturer: Ident, lecture: Ident)

  function ExtractedOf(nodes: seq<Node>): Extracted {
    Extracted(LastOfKind(nodes, "subject"), LastOfKind(nodes, "section"), LastOfKind(nodes, "year"),
              LastOfKind(nodes, "lecturer"), LastOfKind(nodes, "lecture"))
  }

  /** One more node replaces the value of its own kind, if it is one of the
      five. */
  lemma ExtractedSnoc(nodes: seq<Node>, x: Node)
    ensures var e := ExtractedOf(nodes);
      ExtractedOf(nodes + [x])
        == if x.kind == "subject" then e.(subject := x.ident)
           else if x.kind == "section" then e.(section := x.ident)
           else if x.kind == "year" then e.(year := x.ident)
           else if x.kind == "lecturer" then e.(lecturer := x.ident)
           else if x.kind == "lecture" then e.(lecture := x.ident)
           else e
  {
    LastOfKindSnoc(nodes, x, "subject");
    LastOfKindSnoc(nodes, x, "section");
    LastOfKindSnoc(nodes, x, "year");
    LastOfKindSnoc(nodes, x, "lecturer");
    LastOfKindSnoc(nodes, x, "lecture");
  }

  /** `ExtractedSnoc` for the prefixes a loop reads. */
  lemma ExtractedPrefix(nodes: seq<Node>, i: nat)
    requires i < |nodes|
    ensures var e, x := ExtractedOf(nodes[..i]), nodes[i];
      ExtractedOf(nodes[..i + 1])
        == if x.kind == "subject" then e.(subject := x.ident)
           else if x.kind == "section" then e.(section := x.ident)
           else if x.kind == "year" then e.(year := x.ident)
           else if x.kind == "lecturer" then e.(lecturer := x.ident)
           else if x.kind == "lecture" then e.(lecture := x.ident)
           else e
  {
    assert nodes[..i + 1] == nodes[..i] + [nodes[i]];
    ExtractedSnoc(nodes[..i], nodes[i]);
  }

  /** `_extract_state(stack)`: a loop over a copy of the stack, which it
      leaves alone. */
  method ExtractState(stack: NavStack) returns (st: Extracted)
    ensures st == ExtractedOf(stack.nodes)
  {
    var nodes := stack.State();
    var subject, section, year, lecturer, lecture := NoIdent, NoIdent, NoIdent, NoIdent, NoIdent;
    for i := 0 to |nodes|
      invariant Extracted(subject, section, year, lecturer, lecture) == ExtractedOf(nodes[..i])
    {
      var node := nodes[i];
      ExtractedPrefix(nodes, i);
      if node.kind == "subject" {
        subject := node.ident;
      } else if node.kind == "section" {
        section := node.ident;
      } else if node.kind == "year" {
        year := node.ident;
      } else if node.kind == "lecturer" {
        lecturer := node.ident;
      } else if node.kind == "lecture" {
        lecture := node.ident;
      }
    }
    assert nodes[..|nodes|] == nodes;
    st := Extracted(subject, section, year, lecturer, lecture);
  }

  // ----- `navtree_start` ----------------------------------------------------

  /** `while stack.pop(): pass`: pops until the stack is empty. */
  method PopAll(stack: NavStack)
    modifies stack
    ensures stack.nodes == []
  {
    var popped := stack.Pop();
    while popped.Some?
      invariant popped.None? ==> stack.nodes == []
      decreases |stack.nodes| + (if popped.Some? then 1 else 0)
    {
      popped := stack.Pop();
    }
  }

  // ----- `navtree_callback` -------------------------------------------------

  /** What the handler shows: the main menu, the rendered view, the message
      that the view failed (after undoing the change), content copied or
      sent, or nothing. */
  datatype NavOutcome = MainMenu | Rendered | RenderFailed | Delivered | BadPage | Ignored

  /** `data[4:]` when the data starts with `nav:`. */
  function StripNav(data: string): string {
    if "nav:" <= data then data[4..] else data
  }

  /** `s.split(c, 1)` on a string that holds `c`. */
  function SplitFirst(s: string, c: char): (r: (string, string))
    requires c in s
    ensures s == r.0 + [c] + r.1 && c !in r.0
  {
    var i := Callbacks.IndexOf(s, c).value;
    assert s == s[..i] + [c] + s[i + 1..];
    (s[..i], s[i + 1..])
  }

  /** The `(kind, ident)` a selection callback names: not `back`, `page:` or
      `card:`, `sec:` read as `section:`, and a colon somewhere. */
  function Selection(data: string): Option<(string, string)> {
    var d := StripNav(data);
    if d == "back" || "page:" <= d || "card:" <= d then None
    else
      var d2 := if "sec:" <= d then assert d[3] == "sec:"[3]; "section:" + SplitFirst(d, ':').1 else d;
      if ':' in d2 then Some(SplitFirst(d2, ':')) else None
  }

  /** A selection that sends content instead of opening a node. */
  predicate Delivers(kind: string, ident: Ident, identText: string, categorySections: seq<Ident>) {
    (kind == "section_option" && ident in categorySections)
    || kind == "lecture_type"
    || (kind == "term_option" && identText != "subjects")
  }

  /** Whether a menu button has that kind and id. */
  function ButtonIs(kind: string, identText: string): NavMenu.Button -> bool {
    (b: NavMenu.Button) => b.kind == kind && b.ident == identText
  }

  /** The title of the first menu button with that kind and id, `""` when
      none. */
  function LabelFor(buttons: seq<NavMenu.Button>, kind: string, identText: string): string {
    match Seqs.First(buttons, ButtonIs(kind, identText))
    case None => ""
    case Some(b) => b.caption
  }

  /** The ident a selected node is pushed with: none for the term's subject
      list, the (subject, section, year, title) key for a numbered lecture,
      the parsed id otherwise. */
  function PushedIdent(kind: string, ident: Ident, st: Extracted, title: string): Ident {
    if kind == "term_option" then NoIdent
    else if kind == "lecture" && ident.Atom? && ident.value.IntVal? then LectureKey(st.subject, st.section, st.year, title)
    else ident
  }

  /** The node a selection pushes onto a stack. */
  function SelectedNode(nodes: seq<Node>, buttons: seq<NavMenu.Button>, kind: string, identText: string): Node {
    var title := LabelFor(buttons, kind, identText);
    Node(kind, PushedIdent(kind, ParseId(identText), ExtractedOf(nodes), title), title)
  }

  /** The label search: the caption of the first button with that kind and
      id, `""` when no button has them. */
  method FindLabel(buttons: seq<NavMenu.Button>, kind: string, identText: string) returns (title: string)
    ensures (exists i :: 0 <= i < |buttons| && buttons[i].kind == kind && buttons[i].ident == identText
               && title == buttons[i].caption
               && forall j :: 0 <= j < i ==> !(buttons[j].kind == kind && buttons[j].ident == identText))
            || (title == "" && forall b :: b in buttons ==> !(b.kind == kind && b.ident == identText))
    ensures title == LabelFor(buttons, kind, identText)
  {
    title := "";
    var i := 0;
    while i < |buttons|
      invariant 0 <= i <= |buttons|
      invariant forall j :: 0 <= j < i ==> !(buttons[j].kind == kind && buttons[j].ident == identText)
    {
      if buttons[i].kind == kind && buttons[i].ident == identText {
        title := buttons[i].caption;
        FirstIsAt(buttons, i, kind, identText);
        return;
      }
      i := i + 1;
    }
    assert forall b :: b in buttons ==> !ButtonIs(kind, identText)(b);
  }

  lemma FirstIsAt(buttons: seq<NavMenu.Button>, i: nat, kind: string, identText: string)
    requires i < |buttons| && buttons[i].kind == kind && buttons[i].ident == identText
    requires forall j :: 0 <= j < i ==> !(buttons[j].kind == kind && buttons[j].ident == identText)
    ensures LabelFor(buttons, kind, identText) == buttons[i].caption
  {
    var p := ButtonIs(kind, identText);
    var r := Seqs.First(buttons, p);
    assert p(buttons[i]);
    assert r.Some?;
    var k :| 0 <= k < |buttons| && buttons[k] == r.value && forall j :: 0 <= j < k ==> !p(buttons[j]);
    assert p(buttons[k]);
    assert k == i;
  }

  /** `navtree_callback` with the callback's data, the buttons of the menu
      the handler builds and the outcome of rendering the new view.
      `back` pops the top node (or shows the main menu on an empty stack);
      a selection pushes its node; either is undone when rendering fails,
      so a failed render leaves the stack as it was. */
  method NavCallback(stack: NavStack, data: string, buttons: seq<NavMenu.Button>, categorySections: seq<Ident>,
                     renderOk: bool) returns (o: NavOutcome)
    modifies stack
    ensures !renderOk ==> stack.nodes == old(stack.nodes)
    ensures StripNav(data) == "back" ==>
      (old(stack.nodes) == [] ==> o == MainMenu && stack.nodes == [])
      && (old(stack.nodes) != [] && renderOk ==> o == Rendered && stack.nodes == old(stack.nodes)[..|old(stack.nodes)| - 1])
    ensures StripNav(data) != "back" && Selection(data).None? ==> stack.nodes == old(stack.nodes)
    ensures Selection(data).Some? ==>
      var (kind, identText) := Selection(data).value;
      (Delivers(kind, ParseId(identText), identText, categorySections) ==> o == Delivered && stack.nodes == old(stack.nodes))
      && (!Delivers(kind, ParseId(identText), identText, categorySections) && renderOk ==>
            o == Rendered && stack.nodes == old(stack.nodes) + [SelectedNode(old(stack.nodes), buttons, kind, identText)])
  {
    var d := StripNav(data);
    if d == "back" {
      var popped := stack.Pop();
      if popped.None? {
        return MainMenu;
      }
      if renderOk {
        return Rendered;
      }
      stack.Push(popped.value);
      assert old(stack.nodes) == old(stack.nodes)[..|old(stack.nodes)| - 1] + [popped.value];
      return RenderFailed;
    }
    if "page:" <= d {
      assert d[4] == ':';
      var page := Callbacks.ParseInt(SplitFirst(d, ':').1);
      if page.None? {
        return BadPage;
      }
      return if renderOk then Rendered else RenderFailed;
    }
    if "card:" <= d {
      return Delivered;
    }
    if "sec:" <= d {
      assert d[3] == ':';
      d := "section:" + SplitFirst(d, ':').1;
    }
    if ':' !in d {
      return Ignored;
    }
    var (kind, identText) := SplitFirst(d, ':');
    var ident := ParseId(identText);
    var st := ExtractState(stack);
    var title := FindLabel(buttons, kind, identText);
    if Delivers(kind, ident, identText, categorySections) {
      return Delivered;
    }
    stack.Push(Node(kind, PushedIdent(kind, ident, st, title), title));
    if renderOk {
      return Rendered;
    }
    var _ := stack.Pop();
    assert (old(stack.nodes) + [Node(kind, PushedIdent(kind, ident, st, title), title)])[..|old(stack.nodes)|] == old(stack.nodes);
    return RenderFailed;
  }

  /** `s` starts with `p + ":"` while `k + ":"` begins `s` and neither `p`
      nor `k` holds a colon: then `k` is `p`. */
  lemma PrefixKind(k: string, p: string, rest: string)
    requires ':' !in k && ':' !in p
    requires p + ":" <= k + ":" + rest
    ensures k == p
  {
    var s := k + ":" + rest;
    var tail := s[|p| + 1..];
    assert s == p + ":" + tail;
    Callbacks.IndexOfSeparator(k, ':', rest);
    Callbacks.IndexOfSeparator(p, ':', tail);
    assert k == s[..|k|];
    assert p == s[..|p|];
  }

  /** `kind:ident` for an ordinary kind is neither `back` nor a page, card
      or `sec:` callback. */
  lemma NotSpecial(kind: string, identText: string)
    requires ':' !in kind
    requires kind != "page" && kind != "card" && kind != "sec"
    ensures var d := kind + ":" + identText;
      d != "back" && !("page:" <= d) && !("card:" <= d) && !("sec:" <= d)
  {
    var d := kind + ":" + identText;
    assert d[|kind|] == ':';
    assert ':' !in "back";
    if "page:" <= d { PrefixKind(kind, "page", identText); }
    if "card:" <= d { PrefixKind(kind, "card", identText); }
    if "sec:" <= d { PrefixKind(kind, "sec", identText); }
  }

  /** A child button of the paginated keyboard, `nav:{kind}:{ident}`,
      selects that child: the handler reads back its kind and its id. */
  lemma ChildButtonSelects(kind: string, identText: string)
    requires ':' !in kind
    requires kind != "page" && kind != "card" && kind != "sec"
    ensures Selection("nav:" + kind + ":" + identText) == Some((kind, identText))
  {
    var d := kind + ":" + identText;
    assert "nav:" + kind + ":" + identText == "nav:" + d;
    assert StripNav("nav:" + d) == d;
    NotSpecial(kind, identText);
    Callbacks.IndexOfSeparator(kind, ':', identText);
    assert d[..|kind|] == kind;
    assert d[|kind| + 1..] == identText;
  }
}
