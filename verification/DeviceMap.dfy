/**
 * The device map of pax: archives that identify a file by device and inode number get numbers that fit their fields,
 * files that are not links to each other keep apart, and devices already in the archive are avoided.
 */
module DeviceMap {
  import Bits

  /** One remap of a device: inodes that lose these bits go to that device. */
  datatype Remap = Remap(trunc: nat, dev: nat)

  /** The devices to be remapped, each with its list, and the device number tried last. */
  datatype Table = Table(lists: map<nat, seq<Remap>>, lastdev: nat)

  /** What fits the fields of the archive format, and how many values dev_t has. */
  datatype Format = Format(devMask: nat, inoMask: nat, limit: nat)

  datatype Outcome = Stored(dev: nat, ino: nat) | Bad

  datatype Match = NoMatch | To(dev: nat)

  const D_TAB_SZ := 317

  // ---------- bits ----------

  /** x & y. */
  function And(x: nat, y: nat): (r: nat)
    ensures r <= x
  {
    if x == 0 then 0 else 2 * And(x / 2, y / 2) + (x % 2) * (y % 2)
  }

  /** x & ~y. */
  function Cut(x: nat, y: nat): (r: nat)
    ensures r <= x
  {
    if x == 0 then 0 else 2 * Cut(x / 2, y / 2) + (if y % 2 == 0 then x % 2 else 0)
  }

  /** What is kept and what is cut off make up the number. */
  lemma {:induction false} KeptAndCut(x: nat, y: nat)
    ensures And(x, y) + Cut(x, y) == x
  {
    if x > 0 {
      KeptAndCut(x / 2, y / 2);
    }
  }

  // ---------- one call ----------

  /** The first remap on the list for this pattern. */
  function Lookup(list: seq<Remap>, trunc: nat): Match {
    if list == [] then NoMatch
    else if list[0].trunc == trunc then To(list[0].dev)
    else Lookup(list[1..], trunc)
  }

  /** ++last, in dev_t. */
  function Increment(last: nat, limit: nat): (r: nat)
    requires last < limit
    ensures r < limit && (r == 0 || r == last + 1)
  {
    (last + 1) % limit
  }

  /** The next device number not in the table; 0 when the numbers have wrapped around. */
  function NextFree(lists: map<nat, seq<Remap>>, last: nat, limit: nat): (r: nat)
    requires last < limit
    ensures r < limit && (r != 0 ==> last < r && r !in lists)
    ensures r != 0 ==> forall d | last < d < r :: d in lists
    ensures r == 0 ==> forall d | last < d < limit :: d in lists
    decreases limit - last
  {
    var n := Increment(last, limit);
    if n == 0 then 0
    else if n in lists then NextFree(lists, n, limit)
    else n
  }

  /** A device number is looked for and stored under the pattern; the table knows dev already. */
  function Assigned(t: Table, f: Format, dev: nat, nino: nat, trunc: nat): (r: (Table, Outcome))
    requires t.lastdev < f.limit && dev in t.lists
    ensures r.0.lastdev < f.limit
  {
    var v := NextFree(t.lists, t.lastdev, f.limit);
    if v == 0 || And(v, f.devMask) != v then (t.(lastdev := v), Bad)
    else (Table(t.lists[v := []][dev := [Remap(trunc, v)] + t.lists[dev]], v), Stored(v, nino))
  }

  /** The table with a device that has to be remapped from now on; what it was stored as so far stays as it is. */
  function Registered(t: Table, f: Format, dev: nat, trunc: nat): Table {
    t.(lists := t.lists[dev := if And(dev, f.devMask) == dev && trunc != 0 then [Remap(0, dev)] else []])
  }

  /** map_dev. */
  function Mapped(t: Table, f: Format, dev: nat, ino: nat): (r: (Table, Outcome))
    requires t.lastdev < f.limit
    ensures r.0.lastdev < f.limit
  {
    var nino, trunc := And(ino, f.inoMask), Cut(ino, f.inoMask);
    if dev in t.lists then
      match Lookup(t.lists[dev], trunc)
      case To(v) => (t, Stored(v, nino))
      case NoMatch => Assigned(t, f, dev, nino, trunc)
    else if nino == ino && And(dev, f.devMask) == dev then (t, Stored(dev, ino))
    else Assigned(Registered(t, f, dev, trunc), f, dev, nino, trunc)
  }

  /** The call has to find a device number for this file. */
  predicate NeedsNumber(t: Table, f: Format, dev: nat, ino: nat) {
    if dev in t.lists then Lookup(t.lists[dev], Cut(ino, f.inoMask)).NoMatch?
    else And(ino, f.inoMask) != ino || And(dev, f.devMask) != dev
  }

  /** The number it finds; 0 if there is none that fits. */
  function Candidate(t: Table, f: Format, dev: nat, ino: nat): (v: nat)
    requires t.lastdev < f.limit
    ensures v != 0 ==> v !in t.lists && v != dev && And(v, f.devMask) == v
  {
    var lists := if dev in t.lists then t.lists else Registered(t, f, dev, Cut(ino, f.inoMask)).lists;
    var v := NextFree(lists, t.lastdev, f.limit);
    if And(v, f.devMask) == v then v else 0
  }

  // ---------- when a number can be found ----------

  /** A number above lastdev that is not in the table, once the file's own device is. */
  ghost predicate Unknown(t: Table, f: Format, dev: nat, v: nat) {
    t.lastdev < v < f.limit && v !in t.lists && v != dev
  }

  ghost predicate LeastUnknown(t: Table, f: Format, dev: nat, v: nat) {
    Unknown(t, f, dev, v) && forall d | Unknown(t, f, dev, d) :: v <= d
  }

  /** A number is needed, and there is none left, or the first one left does not fit its field. */
  ghost predicate OutOfNumbers(t: Table, f: Format, dev: nat, ino: nat) {
    && NeedsNumber(t, f, dev, ino)
    && ((forall v :: !Unknown(t, f, dev, v)) || exists v :: LeastUnknown(t, f, dev, v) && And(v, f.devMask) != v)
  }

  lemma SearchFinds(t: Table, f: Format, dev: nat, lists: map<nat, seq<Remap>>)
    requires t.lastdev < f.limit && forall d :: d in lists <==> d in t.lists || d == dev
    ensures var v := NextFree(lists, t.lastdev, f.limit);
      if v == 0 then forall d :: !Unknown(t, f, dev, d) else LeastUnknown(t, f, dev, v)
  {
    hide And;
    var v := NextFree(lists, t.lastdev, f.limit);
    if v != 0 {
      forall d | Unknown(t, f, dev, d)
        ensures v <= d
      {
        assert d < v ==> d in lists;
      }
    }
  }

  lemma OneLeast(t: Table, f: Format, dev: nat, v: nat, w: nat)
    requires LeastUnknown(t, f, dev, v) && LeastUnknown(t, f, dev, w)
    ensures v == w
  {
  }

  /** The call is given up exactly when numbers have run out; otherwise the number taken is the first one left. */
  lemma BadExactly(t: Table, f: Format, dev: nat, ino: nat)
    requires t.lastdev < f.limit
    ensures Mapped(t, f, dev, ino).1.Bad? <==> OutOfNumbers(t, f, dev, ino)
    ensures NeedsNumber(t, f, dev, ino) && Mapped(t, f, dev, ino).1.Stored? ==>
      var v := Mapped(t, f, dev, ino).1.dev; LeastUnknown(t, f, dev, v) && And(v, f.devMask) == v
  {
    KeptAndCut(ino, f.inoMask);
    hide And, Cut, NextFree, Lookup, Unknown, LeastUnknown;
    var trunc := Cut(ino, f.inoMask);
    var lists := if dev in t.lists then t.lists else Registered(t, f, dev, trunc).lists;
    SearchFinds(t, f, dev, lists);
    var v := NextFree(lists, t.lastdev, f.limit);
    if v != 0 {
      LeastIsUnknown(t, f, dev, v);
      forall w | LeastUnknown(t, f, dev, w)
        ensures w == v
      {
        OneLeast(t, f, dev, v, w);
      }
    }
  }

  lemma LeastIsUnknown(t: Table, f: Format, dev: nat, v: nat)
    requires LeastUnknown(t, f, dev, v)
    ensures Unknown(t, f, dev, v)
  {
  }

  /** Masks of low bits, which all formats use: what is kept is the remainder, and a number fits up to the mask. */
  lemma {:induction false} LowMask(x: nat, k: nat)
    ensures And(x, Bits.Pow2(k) - 1) == x % Bits.Pow2(k) && Cut(x, Bits.Pow2(k) - 1) == x - x % Bits.Pow2(k)
  {
    KeptAndCut(x, Bits.Pow2(k) - 1);
    if k == 0 {
      AndZero(x);
    } else {
      var p := Bits.Pow2(k - 1);
      assert Bits.Pow2(k) == 2 * p;
      LowMask(x / 2, k - 1);
      hide Bits.Pow2, Cut;
      LowRemainder(x, p);
      Halved(0, p);
      AndHalves(x, 2 * p - 1);
    }
  }

  lemma AndHalves(x: nat, y: nat)
    ensures And(x, y) == 2 * And(x / 2, y / 2) + (x % 2) * (y % 2)
  {
    if x == 0 {
      assert And(0, y / 2) == 0;
    }
  }

  lemma LowRemainder(x: nat, p: nat)
    requires p > 0
    ensures x % (2 * p) == 2 * (x / 2 % p) + x % 2
  {
    var h, b := x / 2, x % 2;
    var q, r := Split(h, p);
    var a, y := Split(x, 2 * p);
    RemainderFrom(x, p, h, q, r, b, a, y);
  }

  lemma RemainderFrom(x: nat, p: nat, h: nat, q: nat, r: nat, b: nat, a: nat, y: nat)
    requires x == h * 2 + b && b < 2 && h == q * p + r && r < p && x == a * (2 * p) + y && y < 2 * p
    ensures y == 2 * r + b
  {
    Product(q, p);
    Unique(q, a, 2 * p, 2 * r + b, y);
  }

  lemma Product(q: nat, p: nat)
    ensures q * (2 * p) == 2 * (q * p)
  {
  }

  lemma Split(x: nat, m: nat) returns (q: nat, r: nat)
    requires m > 0
    ensures x == q * m + r && r < m && r == x % m
  {
    q, r := x / m, x % m;
  }

  lemma Unique(q: nat, a: nat, m: nat, y: nat, b: nat)
    requires q * m + y == a * m + b && y < m && b < m
    ensures y == b
  {
    var d: int := q - a;
    assert d * m == b - y;
    Multiple(d, m);
  }

  lemma Multiple(x: int, m: int)
    requires m >= 0
    ensures x >= 1 ==> x * m >= m
    ensures x <= -1 ==> x * m <= -m
  {
    if x >= 1 {
      assert (x - 1) * m >= 0;
    } else if x <= -1 {
      assert (-x - 1) * m >= 0;
    }
  }

  lemma Fits(v: nat, k: nat)
    ensures And(v, Bits.Pow2(k) - 1) == v <==> v <= Bits.Pow2(k) - 1
  {
    LowMask(v, k);
    hide *;
    Small(v, Bits.Pow2(k));
  }

  lemma Small(v: nat, m: nat)
    requires m > 0
    ensures v < m <==> v % m == v
  {
  }

  /** In those formats numbers have run out exactly when the first one left is above the mask, or there is none. */
  lemma BadExactlyLow(t: Table, f: Format, dev: nat, ino: nat, k: nat)
    requires t.lastdev < f.limit && f.devMask == Bits.Pow2(k) - 1
    ensures Mapped(t, f, dev, ino).1.Bad? <==>
      NeedsNumber(t, f, dev, ino) && forall v: nat | Unknown(t, f, dev, v) :: v > f.devMask
  {
    BadExactly(t, f, dev, ino);
    hide And, Cut, NextFree, Mapped, NeedsNumber, Unknown;
    forall v: nat
      ensures And(v, f.devMask) == v <==> v <= f.devMask
    {
      Fits(v, k);
    }
    if v: nat :| Unknown(t, f, dev, v) {
      var w := SmallestUnknown(t, f, dev, v);
    }
  }

  lemma {:induction false} SmallestUnknown(t: Table, f: Format, dev: nat, v: nat) returns (w: nat)
    requires Unknown(t, f, dev, v)
    ensures LeastUnknown(t, f, dev, w)
    decreases v
  {
    if d: nat :| d < v && Unknown(t, f, dev, d) {
      w := SmallestUnknown(t, f, dev, d);
    } else {
      w := v;
    }
  }

  // ---------- what has been stored ----------

  datatype Entry = Entry(dev: nat, ino: nat, sdev: nat, sino: nat)

  function Recorded(h: seq<Entry>, dev: nat, ino: nat, o: Outcome): seq<Entry> {
    if o.Bad? then h else h + [Entry(dev, ino, o.dev, o.ino)]
  }

  ghost predicate Known(t: Table, d: nat, trunc: nat, v: nat) {
    d in t.lists && Lookup(t.lists[d], trunc) == To(v)
  }

  /** Stored as it was. */
  ghost predicate Direct(t: Table, f: Format, e: Entry) {
    e.dev !in t.lists && e.sdev == e.dev && And(e.dev, f.devMask) == e.dev && Cut(e.ino, f.inoMask) == 0
  }

  ghost predicate EntryOk(t: Table, f: Format, e: Entry) {
    && e.sino == And(e.ino, f.inoMask)
    && (Direct(t, f, e) || Known(t, e.dev, Cut(e.ino, f.inoMask), e.sdev))
  }

  ghost predicate TableOk(t: Table) {
    && (forall d, r, v | Known(t, d, r, v) :: v in t.lists)
    && forall d, r, d', r', v | Known(t, d, r, v) && Known(t, d', r', v) :: d == d' && r == r'
  }

  ghost predicate Inv(t: Table, f: Format, h: seq<Entry>) {
    && t.lastdev < f.limit && TableOk(t)
    && forall i | 0 <= i < |h| :: EntryOk(t, f, h[i])
  }

  /** Files of one device whose inodes lose the same bits share a stored device, and only they do. */
  ghost predicate OneToOne(f: Format, h: seq<Entry>) {
    forall i, j | 0 <= i < |h| && 0 <= j < |h| ::
      (h[i].dev == h[j].dev && Cut(h[i].ino, f.inoMask) == Cut(h[j].ino, f.inoMask)) <==> h[i].sdev == h[j].sdev
  }

  lemma InvOneToOne(t: Table, f: Format, h: seq<Entry>)
    requires Inv(t, f, h)
    ensures OneToOne(f, h)
  {
    hide Lookup, And, Cut;
    forall i, j | 0 <= i < |h| && 0 <= j < |h|
      ensures (h[i].dev == h[j].dev && Cut(h[i].ino, f.inoMask) == Cut(h[j].ino, f.inoMask)) <==> h[i].sdev == h[j].sdev
    {
      assert EntryOk(t, f, h[i]) && EntryOk(t, f, h[j]);
    }
  }

  /** Then a file and another are stored alike just when they are the same file. */
  lemma PairsUnique(f: Format, h: seq<Entry>, i: nat, j: nat)
    requires OneToOne(f, h) && i < |h| && j < |h|
    requires h[i].sino == And(h[i].ino, f.inoMask) && h[j].sino == And(h[j].ino, f.inoMask)
    ensures (h[i].dev, h[i].ino) == (h[j].dev, h[j].ino) <==> (h[i].sdev, h[i].sino) == (h[j].sdev, h[j].sino)
  {
    hide And, Cut;
    KeptAndCut(h[i].ino, f.inoMask);
    KeptAndCut(h[j].ino, f.inoMask);
  }

  // ---------- what a call keeps ----------

  lemma RegisteredKeeps(t: Table, f: Format, h: seq<Entry>, dev: nat, trunc: nat)
    requires Inv(t, f, h) && dev !in t.lists && (And(dev, f.devMask) != dev || trunc != 0)
    ensures Inv(Registered(t, f, dev, trunc), f, h)
  {
    hide And, Cut;
    var t' := Registered(t, f, dev, trunc);
    forall d, r, v | Known(t', d, r, v)
      ensures if d == dev then r == 0 && v == dev else Known(t, d, r, v)
    {
      if d == dev && t'.lists[dev] != [] {
        assert t'.lists[dev][1..] == [] && Lookup([], r) == NoMatch;
      }
    }
    forall i | 0 <= i < |h|
      ensures EntryOk(t', f, h[i])
    {
      assert EntryOk(t, f, h[i]);
    }
  }

  lemma AssignedKeeps(t: Table, f: Format, h: seq<Entry>, dev: nat, ino: nat)
    requires Inv(t, f, h) && dev in t.lists && Lookup(t.lists[dev], Cut(ino, f.inoMask)).NoMatch?
    requires var r := Assigned(t, f, dev, And(ino, f.inoMask), Cut(ino, f.inoMask));
      r.1.Stored? ==> forall i | 0 <= i < |h| :: h[i].dev != r.1.dev
    ensures var r := Assigned(t, f, dev, And(ino, f.inoMask), Cut(ino, f.inoMask));
      Inv(r.0, f, Recorded(h, dev, ino, r.1))
  {
    hide And, Cut, NextFree;
    var trunc := Cut(ino, f.inoMask);
    var r := Assigned(t, f, dev, And(ino, f.inoMask), trunc);
    var v := NextFree(t.lists, t.lastdev, f.limit);
    if r.1.Stored? {
      var t' := r.0;
      assert t'.lists[dev][1..] == t.lists[dev];
      forall d, c, u | Known(t', d, c, u)
        ensures (d == dev && c == trunc && u == v) || (d != v && Known(t, d, c, u))
      {
      }
      forall d, c, u | Known(t, d, c, u)
        ensures Known(t', d, c, u)
      {
      }
      forall i | 0 <= i < |h|
        ensures EntryOk(t', f, h[i])
      {
        assert EntryOk(t, f, h[i]);
      }
      assert Known(t', dev, trunc, v);
    } else {
      forall d, c, u
        ensures Known(r.0, d, c, u) <==> Known(t, d, c, u)
      {
      }
      forall i | 0 <= i < |h|
        ensures EntryOk(r.0, f, h[i])
      {
        assert EntryOk(t, f, h[i]);
      }
    }
  }

  // ---------- a whole write phase ----------

  /** The number this call takes into use is the device of a file that was stored as it was. */
  ghost predicate Clash(t: Table, f: Format, h: seq<Entry>, dev: nat, ino: nat)
    requires t.lastdev < f.limit
  {
    && NeedsNumber(t, f, dev, ino) && Candidate(t, f, dev, ino) != 0
    && exists i :: 0 <= i < |h| && h[i].dev == Candidate(t, f, dev, ino)
  }

  lemma CallKeeps(t: Table, f: Format, h: seq<Entry>, dev: nat, ino: nat)
    requires Inv(t, f, h) && !Clash(t, f, h, dev, ino)
    ensures Inv(Mapped(t, f, dev, ino).0, f, Recorded(h, dev, ino, Mapped(t, f, dev, ino).1))
  {
    hide And, NextFree;
    KeptAndCut(ino, f.inoMask);
    hide Cut;
    var trunc := Cut(ino, f.inoMask);
    if NeedsNumber(t, f, dev, ino) {
      if dev in t.lists {
        AssignedKeeps(t, f, h, dev, ino);
      } else {
        RegisteredKeeps(t, f, h, dev, trunc);
        NotListed(dev, trunc);
        AssignedKeeps(Registered(t, f, dev, trunc), f, h, dev, ino);
      }
    } else {
      hide Lookup;
      assert EntryOk(t, f, Entry(dev, ino, Mapped(t, f, dev, ino).1.dev, Mapped(t, f, dev, ino).1.ino));
    }
  }

  lemma NotListed(dev: nat, trunc: nat)
    ensures Lookup([], trunc) == NoMatch && (trunc != 0 ==> Lookup([Remap(0, dev)], trunc) == NoMatch)
  {
    var one := [Remap(0, dev)];
    assert one[1..] == [];
  }

  lemma CallClashes(t: Table, f: Format, h: seq<Entry>, dev: nat, ino: nat)
    requires Inv(t, f, h) && Clash(t, f, h, dev, ino)
    ensures !OneToOne(f, Recorded(h, dev, ino, Mapped(t, f, dev, ino).1))
  {
    hide And, NextFree, Cut;
    var v := Candidate(t, f, dev, ino);
    var i :| 0 <= i < |h| && h[i].dev == v;
    assert EntryOk(t, f, h[i]) && Direct(t, f, h[i]);
    var h' := Recorded(h, dev, ino, Mapped(t, f, dev, ino).1);
    assert h'[i].sdev == v && h'[|h|].sdev == v && h'[|h|].dev == dev != v;
  }

  datatype Call = Call(dev: nat, ino: nat)

  /** A run of calls: the table afterwards, and what has been stored. */
  function Phase(t: Table, f: Format, h: seq<Entry>, calls: seq<Call>): (Table, seq<Entry>)
    requires t.lastdev < f.limit
    decreases |calls|
  {
    if calls == [] then (t, h) else
      var r := Mapped(t, f, calls[0].dev, calls[0].ino);
      Phase(r.0, f, Recorded(h, calls[0].dev, calls[0].ino, r.1), calls[1..])
  }

  ghost predicate NoClash(t: Table, f: Format, h: seq<Entry>, calls: seq<Call>)
    requires t.lastdev < f.limit
    decreases |calls|
  {
    calls == [] ||
      (!Clash(t, f, h, calls[0].dev, calls[0].ino) &&
       var r := Mapped(t, f, calls[0].dev, calls[0].ino);
       NoClash(r.0, f, Recorded(h, calls[0].dev, calls[0].ino, r.1), calls[1..]))
  }

  /** The table after the read phase: the devices of the archive's own files have been added. */
  function Start(archived: set<nat>): Table {
    Table(map d | d in archived :: [], 0)
  }

  lemma {:induction false} PhaseExtends(t: Table, f: Format, h: seq<Entry>, calls: seq<Call>)
    requires t.lastdev < f.limit
    ensures |h| <= |Phase(t, f, h, calls).1| && Phase(t, f, h, calls).1[..|h|] == h
    decreases |calls|
  {
    hide Mapped;
    if calls != [] {
      var r := Mapped(t, f, calls[0].dev, calls[0].ino);
      var h' := Recorded(h, calls[0].dev, calls[0].ino, r.1);
      PhaseExtends(r.0, f, h', calls[1..]);
      assert Phase(t, f, h, calls).1[..|h|] == h'[..|h|];
    }
  }

  lemma {:induction false} PhaseFrom(t: Table, f: Format, h: seq<Entry>, calls: seq<Call>)
    requires Inv(t, f, h)
    ensures OneToOne(f, Phase(t, f, h, calls).1) <==> NoClash(t, f, h, calls)
    decreases |calls|
  {
    hide Mapped, Inv, Clash, OneToOne, Recorded;
    if calls == [] {
      InvOneToOne(t, f, h);
    } else {
      LastInLimit(t, f, h);
      var c := calls[0];
      var r := Mapped(t, f, c.dev, c.ino);
      var h' := Recorded(h, c.dev, c.ino, r.1);
      if Clash(t, f, h, c.dev, c.ino) {
        CallClashes(t, f, h, c.dev, c.ino);
        PhaseExtends(r.0, f, h', calls[1..]);
        if OneToOne(f, Phase(r.0, f, h', calls[1..]).1) {
          PartOneToOne(f, h', Phase(r.0, f, h', calls[1..]).1);
        }
      } else {
        CallKeeps(t, f, h, c.dev, c.ino);
        PhaseFrom(r.0, f, h', calls[1..]);
      }
    }
  }

  lemma LastInLimit(t: Table, f: Format, h: seq<Entry>)
    requires Inv(t, f, h)
    ensures t.lastdev < f.limit
  {
  }

  lemma PartOneToOne(f: Format, h: seq<Entry>, h': seq<Entry>)
    requires |h| <= |h'| && h'[..|h|] == h && OneToOne(f, h')
    ensures OneToOne(f, h)
  {
    hide Cut;
    forall i, j | 0 <= i < |h| && 0 <= j < |h|
      ensures (h[i].dev == h[j].dev && Cut(h[i].ino, f.inoMask) == Cut(h[j].ino, f.inoMask)) <==> h[i].sdev == h[j].sdev
    {
      assert h[i] == h'[i] && h[j] == h'[j];
    }
  }

  /** Over any write phase the mapping is consistent and one-to-one just when no call takes a directly stored number. */
  lemma PhaseOneToOne(archived: set<nat>, f: Format, calls: seq<Call>)
    requires f.limit > 0
    ensures OneToOne(f, Phase(Start(archived), f, [], calls).1) <==> NoClash(Start(archived), f, [], calls)
  {
    PhaseFrom(Start(archived), f, [], calls);
  }

  lemma {:induction false} PhaseInodes(t: Table, f: Format, h: seq<Entry>, calls: seq<Call>)
    requires t.lastdev < f.limit && forall i | 0 <= i < |h| :: h[i].sino == And(h[i].ino, f.inoMask)
    ensures forall i | 0 <= i < |Phase(t, f, h, calls).1| ::
      Phase(t, f, h, calls).1[i].sino == And(Phase(t, f, h, calls).1[i].ino, f.inoMask)
    decreases |calls|
  {
    hide And, Cut, NextFree, Lookup;
    if calls != [] {
      var c := calls[0];
      var r := Mapped(t, f, c.dev, c.ino);
      PhaseInodes(r.0, f, Recorded(h, c.dev, c.ino, r.1), calls[1..]);
    }
  }

  /** Without a clash, two files get the same pair of numbers just when they are one file. */
  lemma PhasePairs(archived: set<nat>, f: Format, calls: seq<Call>, i: nat, j: nat)
    requires f.limit > 0 && NoClash(Start(archived), f, [], calls)
    requires i < |Phase(Start(archived), f, [], calls).1| && j < |Phase(Start(archived), f, [], calls).1|
    ensures var h := Phase(Start(archived), f, [], calls).1;
      (h[i].dev, h[i].ino) == (h[j].dev, h[j].ino) <==> (h[i].sdev, h[i].sino) == (h[j].sdev, h[j].sino)
  {
    hide Phase, NoClash, OneToOne, And;
    PhaseOneToOne(archived, f, calls);
    PhaseInodes(Start(archived), f, [], calls);
    PairsUnique(f, Phase(Start(archived), f, [], calls).1, i, j);
  }

  // ---------- a clash ----------

  lemma {:induction false} AndLow(x: nat, k: nat)
    requires x < Bits.Pow2(k)
    ensures And(x, Bits.Pow2(k) - 1) == x && And(x + Bits.Pow2(k), Bits.Pow2(k) - 1) == x
  {
    if k == 0 {
      AndZero(1);
    } else {
      var p := Bits.Pow2(k - 1);
      AndLow(x / 2, k - 1);
      Halved(x, p);
      hide Bits.Pow2;
    }
  }

  lemma Halved(x: nat, p: nat)
    requires p > 0
    ensures (2 * p - 1) / 2 == p - 1 && (2 * p - 1) % 2 == 1
    ensures (x + 2 * p) / 2 == x / 2 + p && (x + 2 * p) % 2 == x % 2
  {
  }

  lemma {:induction false} AndZero(x: nat)
    ensures And(x, 0) == 0
  {
    if x > 0 {
      AndZero(x / 2);
    }
  }

  /**
   * 16-bit fields and an empty table: a file on device 1 is stored as it is, and then a file with the same inode on
   * device 65536, which does not fit, is given device 1, the first number the table does not know. Both are stored
   * alike.
   */
  lemma DirectNumberTaken(ino: nat)
    requires ino < Bits.Pow2(16)
    ensures var f := Format(Bits.Pow2(16) - 1, Bits.Pow2(16) - 1, Bits.Pow2(32));
      var calls := [Call(1, ino), Call(Bits.Pow2(16), ino)];
      && Phase(Start({}), f, [], calls).1 == [Entry(1, ino, 1, ino), Entry(Bits.Pow2(16), ino, 1, ino)]
      && !NoClash(Start({}), f, [], calls)
  {
    Bits.Pow2Values();
    var k := Bits.Pow2(16);
    var f := Format(k - 1, k - 1, Bits.Pow2(32));
    var calls := [Call(1, ino), Call(k, ino)];
    AndLow(ino, 16);
    AndLow(1, 16);
    AndLow(0, 16);
    assert And(k, k - 1) == 0 by {
      assert 0 + k == k;
    }
    KeptAndCut(ino, k - 1);
    hide And, Cut;
    var t := Start({});
    StoredAsOne(t, f, k, ino);
    hide NextFree, Lookup, Assigned, Registered;
    var h := [Entry(1, ino, 1, ino)];
    assert [] + h == h;
    assert calls[1..] == [calls[1]] && calls[1..][1..] == [];
    PhaseTwo(t, f, calls[0], calls[1]);
    PhaseOneToOne({}, f, calls);
    var e := [Entry(1, ino, 1, ino), Entry(k, ino, 1, ino)];
    assert h + [Entry(k, ino, 1, ino)] == e;
    assert e[0].sdev == e[1].sdev && e[0].dev != e[1].dev;
  }

  lemma StoredAsOne(t: Table, f: Format, k: nat, ino: nat)
    requires t == Start({}) && 2 < k < f.limit && And(ino, f.inoMask) == ino && Cut(ino, f.inoMask) == 0
    requires And(1, f.devMask) == 1 && And(k, f.devMask) == 0
    ensures Mapped(t, f, 1, ino) == (t, Stored(1, ino)) && Mapped(t, f, k, ino).1 == Stored(1, ino)
  {
    hide And, Cut;
    var t' := Registered(t, f, k, 0);
    assert NextFree(t'.lists, 0, f.limit) == 1;
  }

  lemma PhaseTwo(t: Table, f: Format, a: Call, b: Call)
    requires t.lastdev < f.limit
    ensures var r := Mapped(t, f, a.dev, a.ino);
      var h := Recorded([], a.dev, a.ino, r.1);
      Phase(t, f, [], [a, b]).1 == Recorded(h, b.dev, b.ino, Mapped(r.0, f, b.dev, b.ino).1)
  {
    hide Mapped, Recorded;
    var calls := [a, b];
    assert calls[1..] == [b] && calls[1..][1..] == [];
    var r := Mapped(t, f, a.dev, a.ino);
    var h := Recorded([], a.dev, a.ino, r.1);
    assert Phase(t, f, [], calls) == Phase(r.0, f, h, [b]);
  }

  // ---------- devices already in the archive ----------

  /** Devices of the archive's own files are known and nothing is mapped to them. */
  ghost predicate Spared(t: Table, archived: set<nat>) {
    && (forall d | d in archived :: d in t.lists)
    && forall d, r, v | Known(t, d, r, v) :: v !in archived
  }

  lemma CallSpares(t: Table, f: Format, archived: set<nat>, dev: nat, ino: nat)
    requires Spared(t, archived) && t.lastdev < f.limit
    ensures Spared(Mapped(t, f, dev, ino).0, archived)
    ensures Mapped(t, f, dev, ino).1.Stored? ==> Mapped(t, f, dev, ino).1.dev !in archived
  {
    hide And, Cut, NextFree;
    var trunc := Cut(ino, f.inoMask);
    var t' := if dev in t.lists then t else Registered(t, f, dev, trunc);
    NotListed(dev, trunc);
    forall d, r, v | Known(t', d, r, v)
      ensures v !in archived
    {
      if d != dev || dev in t.lists {
        assert Known(t, d, r, v);
      } else {
        NotListed(dev, r);
      }
    }
    if NeedsNumber(t, f, dev, ino) {
      var t'' := Mapped(t, f, dev, ino).0;
      if Mapped(t, f, dev, ino).1.Stored? {
        assert t''.lists[dev][1..] == t'.lists[dev];
        forall d, r, v | Known(t'', d, r, v)
          ensures v !in archived
        {
          assert v == Mapped(t, f, dev, ino).1.dev || Known(t', d, r, v);
        }
      } else {
        forall d, r, v | Known(t'', d, r, v)
          ensures Known(t', d, r, v)
        {
        }
      }
    } else if dev in t.lists {
      assert Known(t, dev, trunc, Mapped(t, f, dev, ino).1.dev);
    }
  }

  /** No file is stored with a device number that was in the archive before, whatever the calls. */
  lemma {:induction false} PhaseSpares(t: Table, f: Format, h: seq<Entry>, calls: seq<Call>, archived: set<nat>)
    requires Spared(t, archived) && t.lastdev < f.limit && forall i | 0 <= i < |h| :: h[i].sdev !in archived
    ensures forall i | 0 <= i < |Phase(t, f, h, calls).1| :: Phase(t, f, h, calls).1[i].sdev !in archived
    decreases |calls|
  {
    hide Mapped, Spared;
    if calls != [] {
      var r := Mapped(t, f, calls[0].dev, calls[0].ino);
      CallSpares(t, f, archived, calls[0].dev, calls[0].ino);
      PhaseSpares(r.0, f, Recorded(h, calls[0].dev, calls[0].ino, r.1), calls[1..], archived);
    }
  }

  lemma ArchivedSpared(archived: set<nat>, f: Format, calls: seq<Call>)
    requires f.limit > 0
    ensures forall i | 0 <= i < |Phase(Start(archived), f, [], calls).1| ::
      Phase(Start(archived), f, [], calls).1[i].sdev !in archived
  {
    PhaseSpares(Start(archived), f, [], calls, archived);
  }
}
