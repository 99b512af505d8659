/**
 * The first element of a finite map under a strict total order on its
 * values: the eviction victim of an LFU cache, the next task of a task
 * manager.
 */
module Ranking {

  /** `before` orders the values of `m` strictly and totally. */
  ghost predicate StrictTotalOn<K, V>(m: map<K, V>, before: (V, V) -> bool) {
    && (forall k, j | k in m && j in m :: before(m[k], m[j]) ==> !before(m[j], m[k]))
    && (forall k, j, l | k in m && j in m && l in m :: before(m[k], m[j]) && before(m[j], m[l]) ==> before(m[k], m[l]))
    && (forall k, j | k in m && j in m && k != j :: before(m[k], m[j]) || before(m[j], m[k]))
  }

  /** `k` comes before every other key of `m`. */
  ghost predicate IsFirst<K, V>(m: map<K, V>, before: (V, V) -> bool, k: K) {
    k in m && forall j | j in m && j != k :: before(m[k], m[j])
  }

  /** A strict total order on the values of a map orders those of any part of it. */
  lemma StrictTotalOnPart<K, V>(m: map<K, V>, part: map<K, V>, before: (V, V) -> bool)
    requires StrictTotalOn(m, before)
    requires part.Keys <= m.Keys && forall k | k in part :: part[k] == m[k]
    ensures StrictTotalOn(part, before)
  {
  }

  /** Putting `k` back beside the first key `f` of the rest of the map: one of the two comes first. */
  lemma FirstOfRestOrK<K, V>(m: map<K, V>, before: (V, V) -> bool, k: K, f: K)
    requires StrictTotalOn(m, before) && k in m
    requires IsFirst(m - {k}, before, f)
    ensures IsFirst(m, before, k) || IsFirst(m, before, f)
  {
    var rest := m - {k};
    if before(m[k], m[f]) {
      forall j | j in m && j != k ensures before(m[k], m[j]) {
        if j != f {
          assert j in rest && before(m[f], m[j]);
        }
      }
    } else {
      assert before(m[f], m[k]);
      forall j | j in m && j != f ensures before(m[f], m[j]) {
        if j != k {
          assert j in rest;
        }
      }
    }
  }

  /** Taking a key out of a map leaves one key fewer. */
  lemma RemoveKeySize<K, V>(m: map<K, V>, k: K)
    requires k in m
    ensures |m - {k}| == |m| - 1
  {
    assert (m - {k}).Keys == m.Keys - {k};
  }

  /** Every non-empty map has a first key: here it is. */
  lemma {:induction false} FirstKey<K, V>(m: map<K, V>, before: (V, V) -> bool) returns (f: K)
    requires m != map[] && StrictTotalOn(m, before)
    ensures IsFirst(m, before, f)
    decreases |m|
  {
    var k :| k in m;
    var rest := m - {k};
    if rest.Keys == {} {
      assert m.Keys == {k};
      f := k;
    } else {
      RemoveKeySize(m, k);
      StrictTotalOnPart(m, rest, before);
      var g := FirstKey(rest, before);
      FirstOfRestOrK(m, before, k, g);
      f := if IsFirst(m, before, k) then k else g;
    }
  }

  /** Every non-empty map has a first key. */
  lemma FirstExists<K, V>(m: map<K, V>, before: (V, V) -> bool)
    requires m != map[] && StrictTotalOn(m, before)
    ensures exists k :: IsFirst(m, before, k)
  {
    var f := FirstKey(m, before);
  }

  /** The first key is unique. */
  lemma FirstUnique<K, V>(m: map<K, V>, before: (V, V) -> bool, k: K, j: K)
    requires StrictTotalOn(m, before)
    requires IsFirst(m, before, k) && IsFirst(m, before, j)
    ensures k == j
  {
  }

  /** The key of `m` that comes first under `before`. */
  ghost function First<K, V>(m: map<K, V>, before: (V, V) -> bool): (k: K)
    requires m != map[] && StrictTotalOn(m, before)
    ensures IsFirst(m, before, k)
  {
    FirstExists(m, before);
    var k :| IsFirst(m, before, k);
    k
  }
}
