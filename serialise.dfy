/** The ", "-joined name lists stored in the `tipo` and `habilidades`
    columns, and the split that reads them back. */
module Serialise {

  const Separator: string := ", "

  /** The names separated by ", ", with no separator at either end. */
  function Join(parts: seq<string>): string
  {
    if |parts| == 0 then ""
    else if |parts| == 1 then parts[0]
    else parts[0] + Separator + Join(parts[1..])
  }

  /** The index of the first comma of `s`, or `|s|` when there is none. */
  function CommaIndex(s: string): (i: nat)
    ensures i <= |s|
    ensures forall j :: 0 <= j < i ==> s[j] != ','
    ensures i < |s| ==> s[i] == ','
  {
    if |s| == 0 || s[0] == ',' then 0 else 1 + CommaIndex(s[1..])
  }

  /** Reads a stored name list back: cuts at every comma and drops the
      comma and the one character after it, which in a joined list is the
      space of the ", " separator. */
  function Split(s: string): (parts: seq<string>)
    ensures |parts| >= 1
    decreases |s|
  {
    var i := CommaIndex(s);
    if i == |s| then [s]
    else [s[..i]] + Split(s[if i + 2 <= |s| then i + 2 else |s|..])
  }

  /** A name that can be stored in a joined list without ambiguity. */
  predicate PlainName(name: string)
  {
    ',' !in name
  }

  lemma NoCommaIndex(s: string)
    requires PlainName(s)
    ensures CommaIndex(s) == |s|
  {
  }

  /** Reading a stored list back gives the names in the order they were
      joined, provided there is at least one name and none holds a comma. */
  lemma {:induction false} SplitJoin(parts: seq<string>)
    requires |parts| >= 1
    requires forall p :: p in parts ==> PlainName(p)
    ensures Split(Join(parts)) == parts
  {
    assert parts[0] in parts;
    if |parts| == 1 {
      NoCommaIndex(parts[0]);
    } else {
      var p, tail := parts[0], parts[1..];
      forall q | q in tail ensures PlainName(q) {
        assert q in parts;
      }
      SplitJoin(tail);
      var s := Join(parts);
      assert s == p + Separator + Join(tail);
      assert s[|p|] == ',';
      assert forall j :: 0 <= j < |p| ==> s[j] == p[j];
      assert CommaIndex(s) == |p|;
      assert s[..|p|] == p;
      assert s[|p| + 2..] == Join(tail);
      assert parts == [p] + tail;
    }
  }
}
