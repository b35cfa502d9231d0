/**
 * The immutable list edits the client forms make on their line and action
 * lists: `[...list, x]` to add, `list.map((it, i) => i === idx ? f(it) : it)`
 * to change one entry, and `list.filter((_, i) => i !== idx)` to remove one.
 */
module Lists {
  /** `list.map((it, i) => i === idx ? f(it) : it)`: only position `idx` changes; an index outside the list changes nothing. */
  function UpdateAt<T>(s: seq<T>, idx: int, f: T -> T): (r: seq<T>)
    ensures |r| == |s|
    ensures forall i :: 0 <= i < |s| && i != idx ==> r[i] == s[i]
    ensures 0 <= idx < |s| ==> r[idx] == f(s[idx])
  {
    seq(|s|, i requires 0 <= i < |s| => if i == idx then f(s[i]) else s[i])
  }

  /** `list.filter((_, i) => i !== idx)`, written as the reduction it is. */
  function RemoveAt<T>(s: seq<T>, idx: int): seq<T>
    decreases |s|
  {
    if s == [] then []
    else (if idx == 0 then [] else [s[0]]) + RemoveAt(s[1..], idx - 1)
  }

  /**
   * Removing keeps the entries before `idx` in place and moves the ones after
   * it down by one; an index outside the list removes nothing.
   */
  lemma {:induction false} RemoveAtSpec<T>(s: seq<T>, idx: int)
    ensures 0 <= idx < |s| ==> RemoveAt(s, idx) == s[..idx] + s[idx + 1..]
    ensures !(0 <= idx < |s|) ==> RemoveAt(s, idx) == s
    decreases |s|
  {
    if s != [] {
      RemoveAtSpec(s[1..], idx - 1);
      if 0 < idx < |s| {
        assert s[1..][..idx - 1] == s[1..idx];
        assert s[1..][idx..] == s[idx + 1..];
        assert [s[0]] + s[1..idx] == s[..idx];
      } else if idx == 0 {
        assert s[1..] == s[idx + 1..];
      } else {
        assert [s[0]] + s[1..] == s;
      }
    }
  }

  /** Removing one entry removes exactly one occurrence of it and nothing else. */
  lemma RemoveAtMultiset<T>(s: seq<T>, idx: int)
    requires 0 <= idx < |s|
    ensures multiset(RemoveAt(s, idx)) == multiset(s) - multiset{s[idx]}
    ensures |RemoveAt(s, idx)| == |s| - 1
  {
    RemoveAtSpec(s, idx);
    MultisetWithout(s, idx);
  }

  lemma MultisetWithout<T>(s: seq<T>, idx: int)
    requires 0 <= idx < |s|
    ensures multiset(s[..idx] + s[idx + 1..]) == multiset(s) - multiset{s[idx]}
  {
    var a, b := s[..idx], s[idx + 1..];
    assert s == a + ([s[idx]] + b);
    assert multiset(s) == multiset(a) + multiset{s[idx]} + multiset(b);
  }

  /** Adding then removing the added entry gives back the list. */
  lemma AppendThenRemove<T>(s: seq<T>, x: T)
    ensures RemoveAt(s + [x], |s|) == s
  {
    RemoveAtSpec(s + [x], |s|);
    assert (s + [x])[..|s|] == s;
  }
}
