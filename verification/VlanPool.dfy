/** Picking the VLAN pool (scripts/vsphere-discover.py): which IDs are in use, and the lowest
    free block, found by jumping past clashes. */
module VlanPool {
  import opened Basics

  const VLAN_POOL_SIZE := 100
  const VLAN_POOL_MIN := 900
  const VLAN_POOL_MAX := 3999

  /** A port group of a standard switch; `vlan` is None when it is not a number. */
  datatype PortGroup = PortGroup(vlan: Option<int>)

  /** A port group of a distributed switch. */
  datatype DvPortGroup = DvPortGroup(uplink: bool, vlanType: string, vlanId: Option<int>, trunks: seq<(int, int)>)

  datatype Inventory = Inventory(portGroups: seq<PortGroup>, dvPortGroups: seq<DvPortGroup>)

  // ── what counts as in use ────────────────────────────────────────────

  predicate Usable(v: int) {
    0 < v < 4095
  }

  /** A trunk of more than 1000 IDs passes everything and is reported instead of counted. */
  predicate Wide(range: (int, int)) {
    range.1 - range.0 + 1 > 1000
  }

  predicate UsedByPortGroup(pg: PortGroup, v: int) {
    pg.vlan == Some(v) && Usable(v)
  }

  predicate UsedByDvPortGroup(pg: DvPortGroup, v: int) {
    !pg.uplink && Usable(v) &&
    (|| ((pg.vlanType == "vlan" || pg.vlanType == "pvlan") && pg.vlanId == Some(v))
     || exists k :: 0 <= k < |pg.trunks| && !Wide(pg.trunks[k]) && pg.trunks[k].0 <= v <= pg.trunks[k].1)
  }

  ghost predicate InUse(inv: Inventory, v: int) {
    || (exists k :: 0 <= k < |inv.portGroups| && UsedByPortGroup(inv.portGroups[k], v))
    || (exists k :: 0 <= k < |inv.dvPortGroups| && UsedByDvPortGroup(inv.dvPortGroups[k], v))
  }

  function Range(low: int, high: int): (r: set<int>)
    ensures forall v :: v in r <==> low <= v <= high
    decreases high - low
  {
    if low > high then {} else {low} + Range(low + 1, high)
  }

  /** What is reported instead of counted: a standard port group passing every ID, or a wide range of
      a distributed one. */
  datatype Trunk = Everything(group: nat) | Span(group: nat, range: nat)

  predicate Reported(inv: Inventory, t: Trunk) {
    match t
    case Everything(k) => k < |inv.portGroups| && inv.portGroups[k].vlan == Some(4095)
    case Span(k, j) => k < |inv.dvPortGroups| && IsWideRange(inv.dvPortGroups[k], j)
  }

  predicate IsWideRange(pg: DvPortGroup, j: nat) {
    !pg.uplink && j < |pg.trunks| && Wide(pg.trunks[j])
  }

  ghost predicate NoneTwice(trunks: seq<Trunk>) {
    forall i, j :: 0 <= i < j < |trunks| ==> trunks[i] != trunks[j]
  }

  method UsedVlans(inv: Inventory) returns (used: set<int>, trunks: seq<Trunk>)
    ensures forall v :: v in used <==> InUse(inv, v)
    ensures NoneTwice(trunks) && forall t :: t in trunks <==> Reported(inv, t)
  {
    used, trunks := StandardVlans(inv);
    ghost var standard, first := used, trunks;
    for i := 0 to |inv.dvPortGroups|
      invariant forall v :: v in used <==> v in standard || exists k :: 0 <= k < i && UsedByDvPortGroup(inv.dvPortGroups[k], v)
      invariant forall t :: t in trunks <==> t in first || (t.Span? && t.group < i && Reported(inv, t))
      invariant NoneTwice(trunks)
    {
      var more, wide := DvPortGroupVlans(inv.dvPortGroups[i], i);
      used, trunks := used + more, trunks + wide;
    }
  }

  method StandardVlans(inv: Inventory) returns (used: set<int>, trunks: seq<Trunk>)
    ensures forall v :: v in used <==> exists k :: 0 <= k < |inv.portGroups| && UsedByPortGroup(inv.portGroups[k], v)
    ensures NoneTwice(trunks) && forall t :: t in trunks <==> t.Everything? && Reported(inv, t)
  {
    used, trunks := {}, [];
    for i := 0 to |inv.portGroups|
      invariant forall v :: v in used <==> exists k :: 0 <= k < i && UsedByPortGroup(inv.portGroups[k], v)
      invariant NoneTwice(trunks) && forall t :: t in trunks <==> t.Everything? && t.group < i && Reported(inv, t)
    {
      var v := inv.portGroups[i].vlan;
      ghost var before := used;
      if v == Some(4095) {
        trunks := trunks + [Everything(i)];
      } else if v.Some? && 0 < v.value < 4095 {
        used := used + {v.value};
      }
      assert forall x :: x in used <==> x in before || UsedByPortGroup(inv.portGroups[i], x);
    }
  }

  method DvPortGroupVlans(pg: DvPortGroup, group: nat) returns (used: set<int>, wide: seq<Trunk>)
    ensures forall v :: v in used <==> UsedByDvPortGroup(pg, v)
    ensures NoneTwice(wide) && forall t :: t in wide <==> t.Span? && t.group == group && IsWideRange(pg, t.range)
  {
    used, wide := {}, [];
    if pg.uplink { return; }
    if (pg.vlanType == "vlan" || pg.vlanType == "pvlan") && pg.vlanId.Some? && Usable(pg.vlanId.value) {
      used := {pg.vlanId.value};
    }
    ghost var single := used;
    for i := 0 to |pg.trunks|
      invariant forall v :: v in used <==>
                  v in single || (Usable(v) && exists k :: 0 <= k < i && !Wide(pg.trunks[k]) && pg.trunks[k].0 <= v <= pg.trunks[k].1)
      invariant NoneTwice(wide) && forall t :: t in wide <==> t.Span? && t.group == group && t.range < i && IsWideRange(pg, t.range)
    {
      var (start, end) := pg.trunks[i];
      if end - start + 1 > 1000 {
        wide := wide + [Span(group, i)];
      } else {
        used := used + Range(if start >= 1 then start else 1, if end <= 4094 then end else 4094);
      }
    }
  }

  // ── the search ───────────────────────────────────────────────────────

  /** No ID of the block starting there is taken. */
  ghost predicate Free(used: set<int>, start: int, size: int) {
    forall v :: start <= v < start + size ==> v !in used
  }

  /** The greatest taken ID of the block, if any. */
  function LastClash(used: set<int>, start: int, size: int): (clash: Option<int>)
    ensures clash.None? <==> Free(used, start, size)
    ensures clash.Some? ==> start <= clash.value < start + size && clash.value in used
    ensures clash.Some? ==> forall v :: clash.value < v < start + size ==> v !in used
    decreases size
  {
    if size <= 0 then None
    else if start + size - 1 in used then Some(start + size - 1)
    else LastClash(used, start, size - 1)
  }

  /** The lowest free block, or None only when every block of the size clashes. */
  method SuggestVlanBlock(used: set<int>, size: int, low: int, high: int) returns (block: Option<(int, int)>)
    ensures block.Some? ==>
              var (start, end) := block.value;
              low <= start && end == start + size - 1 && end <= high && Free(used, start, size)
              && forall s :: low <= s < start ==> !Free(used, s, size)
    ensures block.None? <==> forall s :: low <= s && s + size - 1 <= high ==> !Free(used, s, size)
  {
    var start := low;
    while start + size - 1 <= high
      invariant low <= start
      invariant forall s :: low <= s < start ==> !Free(used, s, size)
      decreases high - start - size + 1
    {
      var clash := LastClash(used, start, size);
      if clash.None? {
        return Some((start, start + size - 1));
      }
      JumpSkipsNothing(used, start, size, clash.value);
      start := clash.value + 1;
    }
    return None;
  }

  /** Every block starting before the jump's target contains the clash. */
  lemma JumpSkipsNothing(used: set<int>, start: int, size: int, clash: int)
    requires start <= clash < start + size && clash in used
    ensures forall s :: start <= s < clash + 1 ==> !Free(used, s, size)
  {
    forall s | start <= s < clash + 1 ensures !Free(used, s, size) {
      assert s <= clash < s + size;
    }
  }

  ghost predicate Clashes(inv: Inventory, start: int) {
    exists v :: start <= v < start + 100 && InUse(inv, v)
  }

  /** The operator's block when it is clean, else the lowest free one: the pool suggested never
      contains an ID in use, and there is none only when nothing fits. */
  method AnalyseVlans(inv: Inventory, reserved: Option<(int, int)>) returns (pool: Option<(int, int)>, clashes: set<int>)
    ensures pool.Some? ==> forall v :: pool.value.0 <= v <= pool.value.1 ==> !InUse(inv, v)
    ensures reserved.Some? ==> forall v :: v in clashes <==> InUse(inv, v) && reserved.value.0 <= v <= reserved.value.1
    ensures reserved.None? ==> clashes == {}
    ensures reserved.Some? && clashes == {} ==> pool == reserved
    ensures pool.None? ==> forall s :: 900 <= s && s + 99 <= 3999 ==> Clashes(inv, s)
    ensures pool.Some? && pool != reserved ==>
              900 <= pool.value.0 && pool.value.1 == pool.value.0 + 99 && pool.value.1 <= 3999
    ensures pool.Some? && (reserved.None? || clashes != {}) ==>
              forall s :: 900 <= s < pool.value.0 ==> Clashes(inv, s)
  {
    var used, trunks := UsedVlans(inv);
    clashes := {};
    if reserved.Some? {
      clashes := set v | v in used && reserved.value.0 <= v <= reserved.value.1;
      if clashes == {} {
        assert forall v :: v in used && reserved.value.0 <= v <= reserved.value.1 ==> v in clashes;
        return reserved, clashes;
      }
    }
    pool := SuggestVlanBlock(used, VLAN_POOL_SIZE, VLAN_POOL_MIN, VLAN_POOL_MAX);
    forall s | !Free(used, s, VLAN_POOL_SIZE) ensures Clashes(inv, s) {
      var v :| s <= v < s + VLAN_POOL_SIZE && v in used;
      assert InUse(inv, v);
    }
  }
}
