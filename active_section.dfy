/** Active-section tracking of the useActiveSection hook
    (src/hooks/useActiveSection.ts). document.getElementById is a map from
    ids to the element's offsetTop and offsetHeight; window.scrollY is a
    parameter of each scroll event. */
module ActiveSection {
  import opened Wrappers

  /** The layout box of a section element. */
  datatype Box = Box(offsetTop: real, offsetHeight: real)

  /** The offset when the caller passes none. */
  const DefaultOffset: real := 100.0

  /** The probe lies in the box's half-open interval [top, top + height). */
  predicate Contains(b: Box, probe: real) {
    b.offsetTop <= probe < b.offsetTop + b.offsetHeight
  }

  /** The section at index k exists in the document and contains the probe. */
  predicate Hit(ids: seq<string>, dom: map<string, Box>, probe: real, k: int)
    requires 0 <= k < |ids|
  {
    ids[k] in dom && Contains(dom[ids[k]], probe)
  }

  /** sectionIds[0] || '': the first id, or "" for an empty list. */
  function InitialActive(ids: seq<string>): (a: string)
    ensures ids == [] ==> a == ""
    ensures ids != [] ==> a == ids[0]
  {
    if ids == [] then "" else ids[0]
  }

  /** The for loop of handleScroll: the index of the first section, in list
      order, whose element exists and contains the probe, or None when there
      is none. Missing elements are skipped. */
  method FindSection(ids: seq<string>, dom: map<string, Box>, probe: real)
    returns (hit: Option<nat>)
    ensures hit.Some? ==> hit.value < |ids| && Hit(ids, dom, probe, hit.value)
    ensures hit.Some? ==> forall k :: 0 <= k < hit.value ==> !Hit(ids, dom, probe, k)
    ensures hit.None? <==> forall k :: 0 <= k < |ids| ==> !Hit(ids, dom, probe, k)
  {
    var i := 0;
    while i < |ids|
      invariant 0 <= i <= |ids|
      invariant forall k :: 0 <= k < i ==> !Hit(ids, dom, probe, k)
    {
      if ids[i] !in dom {
        i := i + 1;
        continue;
      }
      var box := dom[ids[i]];
      if box.offsetTop <= probe && probe < box.offsetTop + box.offsetHeight {
        assert Hit(ids, dom, probe, i);
        return Some(i);
      }
      i := i + 1;
    }
    return None;
  }

  /** The activeSection cell of one mounted hook. */
  class ActiveSectionTracker {
    const sectionIds: seq<string>
    const offset: real
    var active: string

    /** The active section is the initial value or one of the ids. */
    predicate Valid()
      reads this
    {
      active == InitialActive(sectionIds) || active in sectionIds
    }

    /** Mounting the hook; an omitted offset is None and defaults to 100. */
    constructor (ids: seq<string>, offset: Option<real>)
      ensures sectionIds == ids
      ensures this.offset == if offset.Some? then offset.value else DefaultOffset
      ensures active == InitialActive(ids)
      ensures Valid()
    {
      sectionIds := ids;
      this.offset := if offset.Some? then offset.value else DefaultOffset;
      active := InitialActive(ids);
    }

    /** handleScroll: the first containing section becomes active; when none
        contains the probe scrollY + offset, the active section stays. */
    method HandleScroll(scrollY: real, dom: map<string, Box>)
      requires Valid()
      modifies this
      ensures Valid()
      ensures var probe := scrollY + offset;
              (exists k :: 0 <= k < |sectionIds| && Hit(sectionIds, dom, probe, k)) ==>
                exists k :: 0 <= k < |sectionIds| && Hit(sectionIds, dom, probe, k)
                  && active == sectionIds[k]
                  && forall j :: 0 <= j < k ==> !Hit(sectionIds, dom, probe, j)
      ensures var probe := scrollY + offset;
              (forall k :: 0 <= k < |sectionIds| ==> !Hit(sectionIds, dom, probe, k)) ==>
                active == old(active)
    {
      var hit := FindSection(sectionIds, dom, scrollY + offset);
      if hit.Some? {
        active := sectionIds[hit.value];
      }
    }
  }
}
