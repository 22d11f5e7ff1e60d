/** The list primitives of `System.Collections.Generic.List<T>` and LINQ that
    the services use, on immutable sequences. */
module Seqs {
  import opened Wrappers

  /** `List.FindIndex(p)` / `FirstOrDefault(p)`: the first position whose element
      satisfies `p`, or None when there is none. */
  function FirstIndex<T>(s: seq<T>, p: T -> bool): (r: Option<nat>)
    ensures r.Some? ==> r.value < |s| && p(s[r.value])
    ensures r.Some? ==> forall j :: 0 <= j < r.value ==> !p(s[j])
    ensures r.None? <==> forall j :: 0 <= j < |s| ==> !p(s[j])
  {
    if |s| == 0 then None
    else if p(s[0]) then Some(0)
    else match FirstIndex(s[1..], p)
      case None => None
      case Some(k) => Some(k + 1)
  }

  /** `list[FindIndex(p)] = x` guarded by `index >= 0`: replaces the first element
      satisfying `p`, and leaves the sequence alone when none does. */
  function ReplaceFirst<T>(s: seq<T>, p: T -> bool, x: T): (r: seq<T>)
    ensures |r| == |s|
    ensures FirstIndex(s, p).None? ==> r == s
    ensures FirstIndex(s, p).Some? ==>
      var i := FirstIndex(s, p).value;
      r[i] == x && forall j :: 0 <= j < |s| && j != i ==> r[j] == s[j]
  {
    match FirstIndex(s, p)
    case None => s
    case Some(i) => s[i := x]
  }

  /** `s` occurs in `t` in order, possibly with gaps. */
  predicate IsSubsequence<T(==)>(s: seq<T>, t: seq<T>)
    decreases |t|
  {
    if |s| == 0 then true
    else if |t| == 0 then false
    else if s[0] == t[0] then IsSubsequence(s[1..], t[1..])
    else IsSubsequence(s, t[1..])
  }

  /** LINQ `Where(p)`: keeps, in order, exactly the elements that satisfy `p`,
      each as often as it occurred. */
  function Where<T(==,!new)>(s: seq<T>, p: T -> bool): (r: seq<T>)
    ensures forall x :: x in r ==> p(x)
    ensures forall x :: p(x) ==> multiset(r)[x] == multiset(s)[x]
    ensures IsSubsequence(r, s)
    ensures |r| <= |s|
  {
    if |s| == 0 then []
    else
      var rest := Where(s[1..], p);
      assert s == [s[0]] + s[1..];
      if p(s[0]) then
        [s[0]] + rest
      else
        SubsequenceSkip(rest, s);
        rest
  }

  /** `List.RemoveAll(p)`: keeps, in order, exactly the elements that do not
      satisfy `p`. */
  function RemoveAll<T(==,!new)>(s: seq<T>, p: T -> bool): (r: seq<T>)
    ensures forall x :: x in r ==> !p(x)
    ensures forall x :: !p(x) ==> multiset(r)[x] == multiset(s)[x]
    ensures IsSubsequence(r, s)
  {
    Where(s, x => !p(x))
  }

  /** Dropping the head of the longer sequence keeps a subsequence relation. */
  lemma {:induction false} SubsequenceSkip<T>(s: seq<T>, t: seq<T>)
    requires |t| > 0
    requires IsSubsequence(s, t[1..])
    ensures IsSubsequence(s, t)
    decreases |t|, 0
  {
    if |s| > 0 && s[0] == t[0] {
      if |t| > 1 {
        SubsequenceShrink(s, t[1..]);
      }
    }
  }

  /** A subsequence of a sequence stays one after its own head is dropped. */
  lemma {:induction false} SubsequenceShrink<T>(s: seq<T>, t: seq<T>)
    requires |s| > 0
    requires IsSubsequence(s, t)
    ensures IsSubsequence(s[1..], t)
    decreases |t|, 1
  {
    if |t| > 0 {
      if s[0] == t[0] {
        if |s| > 1 {
          SubsequenceShrink(s[1..], t[1..]);
          SubsequenceSkip(s[1..], t);
        }
      } else {
        SubsequenceShrink(s, t[1..]);
        SubsequenceSkip(s[1..], t);
      }
    }
  }
}
