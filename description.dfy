/**
 * The part of a service description (`ServiceDescription`) that patterns
 * inspect: the labelled descriptions, the flag mask and the location.
 */
module Descriptions {

  import opened Wrappers
  import opened ServiceFlags

  /** A point in space, as decoded from a service's location property. */
  datatype Point = Point(x: real, y: real, z: real)

  /**
   * `descriptions` is the ordered list of (label, description) pairs;
   * `flags` the decoded flag mask; `location` the decoded position, if the
   * service has one.
   */
  datatype ServiceDescription = ServiceDescription(
    descriptions: seq<(string, string)>,
    flags: FlagMask,
    location: Option<Point>)

  /** Entry `i` is the last one whose label is `key`. */
  ghost predicate IsLast(ds: seq<(string, string)>, key: string, i: int)
  {
    0 <= i < |ds| && ds[i].0 == key &&
    forall j :: i < j < |ds| ==> ds[j].0 != key
  }

  /**
   * The description stored under the label `key`: labels are compared by exact
   * string equality, and a later entry overrides an earlier one.
   */
  function Lookup(ds: seq<(string, string)>, key: string): (r: Option<string>)
    ensures r.None? <==> forall i :: 0 <= i < |ds| ==> ds[i].0 != key
    ensures r.Some? ==> exists i :: IsLast(ds, key, i) && ds[i].1 == r.value
  {
    if |ds| == 0 then None
    else if ds[|ds| - 1].0 == key then
      assert IsLast(ds, key, |ds| - 1);
      Some(ds[|ds| - 1].1)
    else
      var front := ds[..|ds| - 1];
      var r := Lookup(front, key);
      assert forall i :: 0 <= i < |front| ==> front[i] == ds[i];
      assert r.Some? ==> exists i :: IsLast(front, key, i) && front[i].1 == r.value;
      assert forall i :: IsLast(front, key, i) ==> IsLast(ds, key, i);
      r
  }

  /** Whatever entry is the last with label `key`, Lookup returns its description. */
  lemma LookupLast(ds: seq<(string, string)>, key: string, i: int)
    requires IsLast(ds, key, i)
    ensures Lookup(ds, key) == Some(ds[i].1)
  {
    var r := Lookup(ds, key);
    assert r.Some?;
    var k :| IsLast(ds, key, k) && ds[k].1 == r.value;
    assert !(i < k) && !(k < i);
  }
}
