/** Values shared by every part of the model: options, clock readings and the
    second-precision time stamps the operator writes, and plain string tests. */
module Base {

  datatype Option<+T> = None | Some(value: T)

  /** A node, by its name. */
  datatype NodeId = NodeId(text: string)

  /** A clock reading, in nanoseconds since the epoch. */
  type Instant = nat

  const SECOND: nat := 1_000_000_000
  const HOUR: nat := 3600 * SECOND

  /** The operator formats times as "2006-01-02 15:04:05 UTC", which drops the
      fraction of a second; a stamp is the whole number of seconds that is left. */
  function Seconds(t: Instant): nat {
    t / SECOND
  }

  lemma SecondsBounds(t: Instant)
    ensures Seconds(t) * SECOND <= t < Seconds(t) * SECOND + SECOND
  {
  }

  lemma SecondsMonotone(t: Instant, u: Instant)
    requires t <= u
    ensures Seconds(t) <= Seconds(u)
  {
    SecondsBounds(t);
    SecondsBounds(u);
  }

  function Min(a: int, b: int): int {
    if a <= b then a else b
  }

  predicate HasPrefix(s: string, p: string) {
    |p| <= |s| && s[..|p|] == p
  }

  predicate HasSuffix(s: string, p: string) {
    |p| <= |s| && s[|s| - |p|..] == p
  }

  /** r holds the entries of l at the given positions, in their order. */
  ghost predicate PickedAt<T(!new)>(l: seq<T>, at: seq<nat>, r: seq<T>) {
    && |at| == |r|
    && (forall i, j :: 0 <= i < j < |at| ==> at[i] < at[j])
    && (forall j :: 0 <= j < |at| ==> at[j] < |l| && r[j] == l[at[j]])
  }

  lemma PickFirst<T(!new)>(l: seq<T>, k: nat, at: seq<nat>, r: seq<T>)
    requires k < |l| && PickedAt(l, at, r) && forall i :: i in at ==> k < i
    ensures PickedAt(l, [k] + at, [l[k]] + r)
  {
    assert forall j :: 0 <= j < |at| ==> at[j] in at;
  }

  lemma PickLast<T(!new)>(l: seq<T>, k: nat, at: seq<nat>, r: seq<T>)
    requires k < |l| && PickedAt(l[..k], at, r)
    ensures PickedAt(l, at, r) && PickedAt(l, at + [k], r + [l[k]])
  {
  }

  ghost predicate Distinct<T(!new)>(s: seq<T>) {
    forall i, j :: 0 <= i < j < |s| ==> s[i] != s[j]
  }
}
