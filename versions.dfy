/**
 * The versions of an application (`AVersion` in
 * openslides/application/models.py): every change of title, text or reason
 * with a non-empty title is stored as a new version, identified by its
 * database id.
 */
module Versions {

  /** One stored version; `rejected` is set when a manager rejects it. */
  datatype Version = Version(id: nat, title: string, text: string, reason: string, rejected: bool)

  /** The title, text and reason an editor has set on the application before saving. */
  datatype Draft = Draft(title: string, text: string, reason: string)

  /** A version holds exactly the fields of the draft. */
  predicate SameContent(v: Version, d: Draft)
  {
    v.title == d.title && v.text == d.text && v.reason == d.reason
  }

  /** The versions listed in the order of their ids, which the database hands out increasing. */
  ghost predicate IdsIncreasing(vs: seq<Version>)
  {
    forall i, j :: 0 <= i < j < |vs| ==> vs[i].id < vs[j].id
  }

  /** Some version has this id. */
  ghost predicate HasId(vs: seq<Version>, id: nat)
  {
    exists k :: 0 <= k < |vs| && vs[k].id == id
  }

  /** The positions of the versions whose id is at most `id`: the database filter `id__lte`. */
  ghost function AtMost(vs: seq<Version>, id: nat): set<nat>
  {
    set k: nat | k < |vs| && vs[k].id <= id
  }

  /**
   * `AVersion.aid`: the number of versions of the application whose id is at
   * most `id`, the running number shown to users.
   */
  function Aid(vs: seq<Version>, id: nat): (n: nat)
    ensures n == |AtMost(vs, id)|
    ensures n <= |vs|
  {
    if vs == [] then
      assert AtMost(vs, id) == {};
      0
    else
      var init, last := vs[..|vs| - 1], |vs| - 1;
      assert AtMost(vs, id) == AtMost(init, id) + (if vs[last].id <= id then {last} else {});
      assert last !in AtMost(init, id);
      Aid(init, id) + (if vs[last].id <= id then 1 else 0)
  }

  /** When every id is at most `id`, all versions are counted. */
  lemma {:induction false} AidCountsAll(vs: seq<Version>, id: nat)
    requires forall k :: 0 <= k < |vs| ==> vs[k].id <= id
    ensures Aid(vs, id) == |vs|
  {
    if vs != [] {
      AidCountsAll(vs[..|vs| - 1], id);
    }
  }

  /** With increasing ids, the running number of the k-th version is k + 1. */
  lemma {:induction false} AidIsPosition(vs: seq<Version>, k: nat)
    requires IdsIncreasing(vs)
    requires k < |vs|
    ensures Aid(vs, vs[k].id) == k + 1
  {
    var init := vs[..|vs| - 1];
    if k == |vs| - 1 {
      AidCountsAll(init, vs[k].id);
    } else {
      AidIsPosition(init, k);
    }
  }

  /** The last version listed is the one with the largest id. */
  lemma LastHasLargestId(vs: seq<Version>)
    requires IdsIncreasing(vs)
    requires vs != []
    ensures forall v :: v in vs ==> v.id <= vs[|vs| - 1].id
  {
    forall v | v in vs
      ensures v.id <= vs[|vs| - 1].id
    {
      var j :| 0 <= j < |vs| && vs[j] == v;
    }
  }

  /** A version id that occurs in the list is at most the last id. */
  lemma HasIdAtMostLast(vs: seq<Version>, id: nat)
    requires IdsIncreasing(vs)
    requires HasId(vs, id)
    ensures vs != [] && id <= vs[|vs| - 1].id
  {
    var k :| 0 <= k < |vs| && vs[k].id == id;
    assert k == |vs| - 1 || vs[k].id < vs[|vs| - 1].id;
  }
}
