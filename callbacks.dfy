/** The `callback_data` strings the inline buttons carry: built with
    f-strings joined by `:` and taken apart again with `split(":")` and
    `int(...)`. */
module Callbacks {
  import opened Wrappers
  import Text

  /** The position of the first `c` in `s`. */
  function IndexOf(s: string, c: char): (r: Option<nat>)
    ensures r.None? <==> c !in s
    ensures r.Some? ==> r.value < |s| && s[r.value] == c && forall j :: 0 <= j < r.value ==> s[j] != c
  {
    if s == [] then None
    else if s[0] == c then Some(0)
    else
      match IndexOf(s[1..], c)
      case None => None
      case Some(i) => Some(i + 1)
  }

  /** `s.split(c)`: the pieces between the separators, never an empty list. */
  function Split(s: string, c: char): (parts: seq<string>)
    ensures |parts| > 0
    ensures forall i :: 0 <= i < |parts| ==> c !in parts[i]
    decreases |s|
  {
    match IndexOf(s, c)
    case None => [s]
    case Some(i) => [s[..i]] + Split(s[i + 1..], c)
  }

  /** Splitting and joining again with the same separator gives the text
      back. */
  lemma {:induction false} JoinSplit(s: string, c: char)
    ensures Text.Join([c], Split(s, c)) == s
    decreases |s|
  {
    match IndexOf(s, c)
    case None =>
    case Some(i) =>
      JoinSplit(s[i + 1..], c);
      assert s == s[..i] + [c] + s[i + 1..];
  }

  /** The first separator of `a + [c] + b` is the one after `a`. */
  lemma {:induction false} IndexOfSeparator(a: string, c: char, b: string)
    requires c !in a
    ensures IndexOf(a + [c] + b, c) == Some(|a|)
  {
    if a != [] {
      assert (a + [c] + b)[1..] == a[1..] + [c] + b;
      IndexOfSeparator(a[1..], c, b);
    }
  }

  /** Joining pieces that do not contain the separator and splitting
      again gives the pieces back. */
  lemma {:induction false} SplitJoin(parts: seq<string>, c: char)
    requires |parts| > 0
    requires forall i :: 0 <= i < |parts| ==> c !in parts[i]
    ensures Split(Text.Join([c], parts), c) == parts
    decreases |parts|
  {
    if |parts| == 1 {
      assert Text.Join([c], parts) == parts[0];
    } else {
      var rest := Text.Join([c], parts[1..]);
      assert Text.Join([c], parts) == parts[0] + [c] + rest;
      SplitCons(parts[0], c, rest);
      SplitJoin(parts[1..], c);
      assert parts == [parts[0]] + parts[1..];
    }
  }

  /** The piece before the first separator comes off whole. */
  lemma SplitCons(a: string, c: char, b: string)
    requires c !in a
    ensures Split(a + [c] + b, c) == [a] + Split(b, c)
  {
    IndexOfSeparator(a, c, b);
    assert (a + [c] + b)[..|a|] == a;
    assert (a + [c] + b)[|a| + 1..] == b;
  }

  /** Two, three and four pieces without the separator, joined by it,
      split back into themselves. */
  lemma SplitTwo(p0: string, p1: string)
    requires ':' !in p0 && ':' !in p1
    ensures var r := Split(p0 + ":" + p1, ':');
      |r| == 2 && r[0] == p0 && r[1] == p1
  {
    SplitCons(p0, ':', p1);
  }

  lemma SplitThree(p0: string, p1: string, p2: string)
    requires ':' !in p0 && ':' !in p1 && ':' !in p2
    ensures var r := Split(p0 + ":" + p1 + ":" + p2, ':');
      |r| == 3 && r[0] == p0 && r[1] == p1 && r[2] == p2
  {
    SplitTwo(p1, p2);
    assert p0 + ":" + p1 + ":" + p2 == p0 + ":" + (p1 + ":" + p2);
    SplitCons(p0, ':', p1 + ":" + p2);
  }

  lemma SplitFour(p0: string, p1: string, p2: string, p3: string)
    requires ':' !in p0 && ':' !in p1 && ':' !in p2 && ':' !in p3
    ensures var r := Split(p0 + ":" + p1 + ":" + p2 + ":" + p3, ':');
      |r| == 4 && r[0] == p0 && r[1] == p1 && r[2] == p2 && r[3] == p3
  {
    var mid := p1 + ":" + p2;
    var rest := mid + ":" + p3;
    var tail := Split(rest, ':');
    assert p0 + ":" + p1 + ":" + p2 + ":" + p3 == p0 + ":" + rest by {
      Regroup(p0, p1, p2);
      Regroup(p0, mid, p3);
    }
    assert Split(p0 + ":" + rest, ':') == [p0] + tail by {
      SplitCons(p0, ':', rest);
    }
    assert |tail| == 3 && tail[0] == p1 && tail[1] == p2 && tail[2] == p3 by {
      SplitThree(p1, p2, p3);
    }
  }

  /** `a:x:y` read as `a` and the rest. */
  lemma Regroup(a: string, x: string, y: string)
    ensures a + ":" + x + ":" + y == a + ":" + (x + ":" + y)
  {
  }

  /** `int(s)` on a decimal numeral with an optional sign; `None` where
      Python raises `ValueError`. */
  function ParseInt(s: string): (r: Option<int>)
    ensures r.Some? ==> |s| > 0
  {
    if |s| > 0 && (s[0] == '-' || s[0] == '+') && Text.IsDecimal(s[1..]) then
      var v: int := Text.DigitsValue(s[1..]);
      Some(if s[0] == '-' then -v else v)
    else if Text.IsDecimal(s) then Some(Text.DigitsValue(s))
    else None
  }

  /** `str(i)` has no separator in it. */
  lemma NumeralHasNoColon(i: int)
    ensures ':' !in Text.IntToString(i)
  {
    var r := Text.IntToString(i);
    forall k | 0 <= k < |r| ensures r[k] != ':' {
      if i >= 0 {
        assert Text.IsDigit(r[k]);
      } else if k > 0 {
        assert r[k] == r[1..][k - 1];
        assert Text.IsDigit(r[1..][k - 1]);
      }
    }
  }

  /** `int(str(i)) == i`. */
  lemma ParseIntToString(i: int)
    ensures ParseInt(Text.IntToString(i)) == Some(i)
  {
  }

  /** `f"{action}:{id}"`, the data of the Approve and Reject buttons. */
  function DecisionData(action: string, id: int): string {
    action + ":" + Text.IntToString(id)
  }

  /** `action, ing_id = data.split(":")` and `int(ing_id)`: exactly two
      pieces, the second a numeral; `None` where Python raises. */
  function ParseDecision(data: string): (r: Option<(string, int)>)
    ensures r.Some? ==> ':' !in r.value.0
    ensures r.Some? ==> |Split(data, ':')| == 2
  {
    var parts := Split(data, ':');
    if |parts| != 2 then None
    else
      match ParseInt(parts[1])
      case None => None
      case Some(id) => Some((parts[0], id))
  }

  /** The buttons' data reads back as the action and the id it was built
      from. */
  lemma DecisionRoundTrip(action: string, id: int)
    requires ':' !in action
    ensures ParseDecision(DecisionData(action, id)) == Some((action, id))
  {
    NumeralHasNoColon(id);
    ParseIntToString(id);
    SplitTwo(action, Text.IntToString(id));
  }

  /** `f"dup:rep:{msg}:{old}"` and `f"dup:cancel:{msg}"`, the data of the
      duplicate prompt's two buttons. */
  function ReplaceData(msgId: int, oldMaterialId: int): string {
    "dup" + ":" + "rep" + ":" + Text.IntToString(msgId) + ":" + Text.IntToString(oldMaterialId)
  }

  function CancelData(msgId: int): string {
    "dup" + ":" + "cancel" + ":" + Text.IntToString(msgId)
  }

  /** `_, action, msg_id, *rest = data.split(":")` and `int(msg_id)`: at
      least three pieces, the third a numeral. */
  function ParseDuplicate(data: string): (r: Option<(string, int)>)
    ensures r.Some? ==> ':' !in r.value.0 && |Split(data, ':')| >= 3
  {
    var parts := Split(data, ':');
    if |parts| < 3 then None
    else
      match ParseInt(parts[2])
      case None => None
      case Some(msgId) => Some((parts[1], msgId))
  }

  /** The replace button reads back as its action and the message id. */
  lemma ReplaceRoundTrip(msgId: int, oldMaterialId: int)
    ensures ParseDuplicate(ReplaceData(msgId, oldMaterialId)) == Some(("rep", msgId))
  {
    NumeralHasNoColon(msgId);
    NumeralHasNoColon(oldMaterialId);
    SplitFour("dup", "rep", Text.IntToString(msgId), Text.IntToString(oldMaterialId));
    ParseIntToString(msgId);
  }

  /** The cancel button reads back as its action and the message id. */
  lemma CancelRoundTrip(msgId: int)
    ensures ParseDuplicate(CancelData(msgId)) == Some(("cancel", msgId))
  {
    NumeralHasNoColon(msgId);
    ParseIntToString(msgId);
    SplitThree("dup", "cancel", Text.IntToString(msgId));
  }

  /** `f"dup:keep:{msg}:{user}"` and `f"dup:del:{msg}:{user}"`. */
  function ChoiceData(action: string, msgId: int, userId: int): string {
    "dup" + ":" + action + ":" + Text.IntToString(msgId) + ":" + Text.IntToString(userId)
  }

  /** `_, action, msg_id, user_id = data.split(":")` with both numbers read
      by `int`: exactly four pieces. */
  function ParseChoice(data: string): (r: Option<(string, int, int)>)
    ensures r.Some? ==> |Split(data, ':')| == 4 && ':' !in r.value.0
  {
    var parts := Split(data, ':');
    if |parts| != 4 then None
    else
      match (ParseInt(parts[2]), ParseInt(parts[3]))
      case (Some(msgId), Some(userId)) => Some((parts[1], msgId, userId))
      case _ => None
  }

  /** The keep/delete buttons read back as their action, message and user. */
  lemma ChoiceRoundTrip(action: string, msgId: int, userId: int)
    requires ':' !in action
    ensures ParseChoice(ChoiceData(action, msgId, userId)) == Some((action, msgId, userId))
  {
    NumeralHasNoColon(msgId);
    NumeralHasNoColon(userId);
    SplitFour("dup", action, Text.IntToString(msgId), Text.IntToString(userId));
    ParseIntToString(msgId);
    ParseIntToString(userId);
  }
}
