/** tables.c: the device map as it is kept, hash chains of devices that each carry a list of remaps. */
module DeviceTable {
  import opened DeviceMap

  /** DEVT; the chain it is on is kept by the table. */
  class Device {
    const dev: nat
    var list: seq<Remap>

    constructor (d: nat)
      ensures dev == d && list == []
    {
      dev, list := d, [];
    }
  }

  ghost predicate Chained(dtab: seq<seq<Device>>, known: map<nat, Device>) {
    && |dtab| == D_TAB_SZ
    && (forall i, k | 0 <= i < D_TAB_SZ && 0 <= k < |dtab[i]| ::
          dtab[i][k].dev in known && known[dtab[i][k].dev] == dtab[i][k])
    && (forall d | d in known :: known[d].dev == d && known[d] in dtab[d % D_TAB_SZ])
  }

  /** A new device at the front of its chain. */
  lemma ChainedMore(dtab: seq<seq<Device>>, known: map<nat, Device>, pt: Device)
    requires Chained(dtab, known) && pt.dev !in known
    ensures Chained(dtab[pt.dev % D_TAB_SZ := [pt] + dtab[pt.dev % D_TAB_SZ]], known[pt.dev := pt])
  {
  }

  class DeviceTable {
    const dtab: array<seq<Device>>
    var lastdev: nat
    ghost var known: map<nat, Device>

    ghost predicate Valid()
      reads this, dtab
    {
      dtab.Length == D_TAB_SZ && Chained(dtab[..], known)
    }

    /** The table as a value. */
    ghost function Abs(): Table
      reads this, known.Values
    {
      Table(map d | d in known :: known[d].list, lastdev)
    }

    /** dev_start. */
    constructor ()
      ensures Valid() && fresh(dtab) && Abs() == Start({})
    {
      dtab := new seq<Device>[D_TAB_SZ](_ => []);
      lastdev := 0;
      known := map[];
    }

    /** chk_dev: the device's entry, made if need be and wanted. */
    method ChkDev(dev: nat, add: bool) returns (pt: Device?)
      requires Valid()
      modifies this`known, dtab
      ensures Valid()
      ensures old(dev in known) ==> pt == old(known[dev])
      ensures old(dev in known) || !add ==> known == old(known) && dtab[..] == old(dtab[..])
      ensures old(dev !in known) ==> if add then pt != null && fresh(pt) && pt.list == [] && known == old(known)[dev := pt]
                                     else pt == null
      ensures pt != null ==> pt.dev == dev
    {
      var indx := dev % D_TAB_SZ;
      var k := 0;
      while k < |dtab[indx]|
        invariant 0 <= k <= |dtab[indx]|
        invariant forall j | 0 <= j < k :: dtab[indx][j].dev != dev
      {
        if dtab[indx][k].dev == dev {
          return dtab[indx][k];
        }
        k := k + 1;
      }
      if !add {
        return null;
      }
      var node := new Device(dev);
      ghost var was := dtab[..];
      ChainedMore(was, known, node);
      dtab[indx] := [node] + dtab[indx];
      known := known[dev := node];
      assert dtab[..] == was[indx := [node] + was[indx]];
      return node;
    }

    /** Put a remap at the front of a device's list. */
    method AddRemap(pt: Device, trunc: nat, dev: nat)
      requires Valid() && pt.dev in known && known[pt.dev] == pt
      modifies pt`list
      ensures Valid() && Abs() == old(Abs()).(lists := old(Abs().lists)[pt.dev := [Remap(trunc, dev)] + old(pt.list)])
    {
      ghost var was := Abs();
      pt.list := [Remap(trunc, dev)] + pt.list;
      forall d | d in known
        ensures Abs().lists[d] == was.lists[pt.dev := pt.list][d]
      {
        assert known[d].dev == d;
      }
      assert Abs().lists == was.lists[pt.dev := pt.list];
    }

    /** add_dev, in the read phase of an append: the device is known and nothing is mapped yet. */
    method AddDev(dev: nat)
      requires Valid()
      modifies this`known, dtab
      ensures Valid() && lastdev == old(lastdev)
      ensures Abs().lists == if dev in old(Abs()).lists then old(Abs()).lists else old(Abs()).lists[dev := []]
    {
      ghost var was := Abs();
      var pt := ChkDev(dev, true);
      assert Abs().lists == if dev in was.lists then was.lists else was.lists[dev := []];
    }

    /** The search for an unused number. */
    method NextNumber(limit: nat)
      requires Valid() && lastdev < limit
      modifies this`lastdev, this`known, dtab
      ensures Valid() && known == old(known) && dtab[..] == old(dtab[..])
      ensures lastdev == NextFree(old(Abs()).lists, old(lastdev), limit)
    {
      hide Increment, Chained;
      ghost var lists, last, chains := Abs().lists, lastdev, dtab[..];
      while true
        invariant Valid() && known == old(known) && dtab[..] == chains && lastdev < limit
        invariant NextFree(lists, last, limit) == NextFree(lists, lastdev, limit)
        decreases limit - lastdev
      {
        lastdev := Increment(lastdev, limit);
        if lastdev == 0 {
          break;
        }
        var pt := ChkDev(lastdev, false);
        if pt == null {
          break;
        }
      }
    }

    /** From the search on: the number found becomes a device of its own and is stored under the pattern. */
    method Assign(pt: Device, nino: nat, trunc: nat, f: Format) returns (ok: bool)
      requires Valid() && pt.dev in known && known[pt.dev] == pt && lastdev < f.limit
      modifies this, dtab, pt`list
      ensures Valid() && pt.dev in old(Abs()).lists
      ensures (Abs(), if ok then Stored(lastdev, nino) else Bad) == Assigned(old(Abs()), f, pt.dev, nino, trunc)
    {
      hide And, Lookup;
      ghost var t := Abs();
      NextNumber(f.limit);
      assert Abs() == t.(lastdev := lastdev);
      if lastdev == 0 || And(lastdev, f.devMask) != lastdev {
        return false;
      }
      var fresh_pt := ChkDev(lastdev, true);
      assert Abs().lists == t.lists[lastdev := []];
      AddRemap(pt, trunc, lastdev);
      return true;
    }

    method FindRemap(pt: Device, trunc: nat) returns (m: Match)
      ensures m == Lookup(pt.list, trunc)
    {
      var k := 0;
      while k < |pt.list|
        invariant 0 <= k <= |pt.list| && Lookup(pt.list, trunc) == Lookup(pt.list[k..], trunc)
      {
        if pt.list[k].trunc == trunc {
          return To(pt.list[k].dev);
        }
        k := k + 1;
      }
      return NoMatch;
    }

    /** A device that is not in the table and cannot be stored as it is. */
    method Register(st_dev: nat, trunc_bits: nat, trc_dev: bool, ghost f: Format) returns (pt: Device)
      requires Valid() && st_dev !in known && (trc_dev <==> And(st_dev, f.devMask) != st_dev)
      modifies this`known, dtab
      ensures Valid() && fresh(pt) && known == old(known)[st_dev := pt] && pt.dev == st_dev
      ensures Abs() == Registered(old(Abs()), f, st_dev, trunc_bits)
    {
      hide And, Chained;
      ghost var t := Abs();
      pt := ChkDev(st_dev, true);
      assert Abs().lists == t.lists[st_dev := []];
      if !trc_dev && trunc_bits != 0 {
        AddRemap(pt, 0, st_dev);
        assert [Remap(0, st_dev)] + [] == [Remap(0, st_dev)];
      }
    }

    /** map_dev: the numbers the file is stored with; ok is false when the warning is given and they stay as they are. */
    method MapDev(st_dev: nat, st_ino: nat, f: Format) returns (ok: bool, dev: nat, ino: nat)
      requires Valid() && lastdev < f.limit
      modifies this, dtab, known.Values
      ensures Valid()
      ensures (Abs(), if ok then Stored(dev, ino) else Bad) == Mapped(old(Abs()), f, st_dev, st_ino)
      ensures !ok <==> OutOfNumbers(old(Abs()), f, st_dev, st_ino)
      ensures !ok ==> dev == st_dev && ino == st_ino
    {
      KeptAndCut(st_ino, f.inoMask);
      BadExactly(Abs(), f, st_dev, st_ino);
      hide And, Cut, Lookup, NextFree, Assigned, OutOfNumbers;
      ghost var t := Abs();
      var nino, trunc_bits := And(st_ino, f.inoMask), Cut(st_ino, f.inoMask);
      var trc_dev, trc_ino := And(st_dev, f.devMask) != st_dev, nino != st_ino;
      var pt := ChkDev(st_dev, false);
      assert Abs() == t;
      if pt != null {
        var m := FindRemap(pt, trunc_bits);
        if m.To? {
          return true, m.dev, nino;
        }
      } else {
        if !trc_ino && !trc_dev {
          return true, st_dev, st_ino;
        }
        pt := Register(st_dev, trunc_bits, trc_dev, f);
      }
      ok := Assign(pt, nino, trunc_bits, f);
      if ok {
        return true, lastdev, nino;
      }
      return false, st_dev, st_ino;
    }
  }
}
