/** The navigation stack of the inline tree browser: the nodes a user has
    opened, kept in `user_data["nav_stack"]` and pushed, popped and
    cleared as the user moves through the tree. */
module NavStacks {
  import opened Wrappers
  import Seqs
  import Text

  /** A node's identifier: none, a number or a text, the parts of a
      compound id such as `"123-theory"`, or the (subject, section, year,
      title) key a lecture node carries. */
  datatype Ident =
    | NoIdent
    | Atom(value: Scalar)
    | Parts(parts: seq<Scalar>)
    | LectureKey(subject: Ident, section: Ident, year: Ident, title: string)

  /** `Node(kind, ident, title)`; the title is `""` unless given. */
  datatype Node = Node(kind: string, ident: Ident, title: string)

  /** What `user_data` holds under `nav_stack` when the stack is opened: a
      list of nodes, or a value of another type. */
  datatype Stored = NodeList(nodes: seq<Node>) | NotAList

  /** The top of a stack of nodes, if any. */
  function Top(s: seq<Node>): (r: Option<Node>)
    ensures r.None? <==> s == []
    ensures r.Some? ==> r.value in s
  {
    if s == [] then None else Some(s[|s| - 1])
  }

  /** The titles `path_text` shows: the non-empty ones, bottom to top. */
  function Titles(s: seq<Node>): (r: seq<string>)
    ensures forall t :: t in r ==> t != ""
    ensures |r| <= |s|
  {
    if s == [] then []
    else Titles(s[..|s| - 1]) + (if s[|s| - 1].title != "" then [s[|s| - 1].title] else [])
  }

  /** `" / ".join(...)` of the titles. */
  function Path(s: seq<Node>): string {
    Text.Join(" / ", Titles(s))
  }

  /** Joining one more part adds the separator and the part, or is the part
      alone when there was none before. */
  lemma {:induction false} JoinSnoc(sep: string, parts: seq<string>, t: string)
    ensures Text.Join(sep, parts + [t]) == if parts == [] then t else Text.Join(sep, parts) + sep + t
    decreases |parts|
  {
    if |parts| > 1 {
      assert (parts + [t])[1..] == parts[1..] + [t];
      JoinSnoc(sep, parts[1..], t);
    } else if |parts| == 1 {
      assert (parts + [t])[1..] == [t];
    }
  }

  /** Pushing a titled node extends the path by `" / "` and its title;
      pushing an untitled one leaves the path as it was. */
  lemma PathAfterPush(s: seq<Node>, x: Node)
    ensures x.title == "" ==> Path(s + [x]) == Path(s)
    ensures x.title != "" ==> Path(s + [x]) == if Titles(s) == [] then x.title else Path(s) + " / " + x.title
  {
    assert (s + [x])[..|s + [x]| - 1] == s;
    assert Titles(s + [x]) == Titles(s) + (if x.title != "" then [x.title] else []);
    if x.title != "" {
      JoinSnoc(" / ", Titles(s), x.title);
    } else {
      assert Titles(s) + [] == Titles(s);
    }
  }

  /** `NavStack(user_data)`: the stack object over the user's list. */
  class NavStack {
    var nodes: seq<Node>

    /** The list already stored under `nav_stack` is reused; anything else
        is replaced by a new empty list. */
    constructor (stored: Option<Stored>)
      ensures nodes == if stored.Some? && stored.value.NodeList? then stored.value.nodes else []
    {
      if stored.Some? && stored.value.NodeList? {
        nodes := stored.value.nodes;
      } else {
        nodes := [];
      }
    }

    method Push(node: Node)
      modifies this
      ensures nodes == old(nodes) + [node]
    {
      nodes := nodes + [node];
    }

    /** The top node, removed; `None` on an empty stack, which stays empty. */
    method Pop() returns (r: Option<Node>)
      modifies this
      ensures r == Top(old(nodes))
      ensures old(nodes) == [] ==> nodes == []
      ensures old(nodes) != [] ==> nodes == old(nodes)[..|old(nodes)| - 1]
    {
      if nodes == [] {
        return None;
      }
      r := Some(nodes[|nodes| - 1]);
      nodes := nodes[..|nodes| - 1];
    }

    function Peek(): Option<Node>
      reads this
    {
      Top(nodes)
    }

    method Clear()
      modifies this
      ensures nodes == []
    {
      nodes := [];
    }

    function PathText(): string
      reads this
    {
      Path(nodes)
    }

    /** `state()`: the nodes as a value, which later pushes and pops do not
        alter. */
    function State(): seq<Node>
      reads this
    {
      nodes
    }
  }

  /** A push followed by a pop gives the pushed node back and leaves the
      stack as it was. */
  method PushThenPop(s: NavStack, x: Node) returns (r: Option<Node>)
    modifies s
    ensures r == Some(x)
    ensures s.nodes == old(s.nodes)
  {
    s.Push(x);
    r := s.Pop();
    assert (old(s.nodes) + [x])[..|old(s.nodes)|] == old(s.nodes);
  }

  /** After a push the pushed node is on top. */
  method PushThenPeek(s: NavStack, x: Node) returns (r: Option<Node>)
    modifies s
    ensures r == Some(x)
    ensures s.nodes == old(s.nodes) + [x]
  {
    s.Push(x);
    r := s.Peek();
  }
}
