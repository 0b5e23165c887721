/**
 * The writer of pax that leaves holes: blocks of zeros are skipped instead of written, in whatever pieces the data
 * come, and the file reads as if everything had been written.
 */
module SparseWrite {
  import opened Basics

  function Zeros(n: nat): (r: seq<int>)
    ensures |r| == n && forall i | 0 <= i < n :: r[i] == 0
  {
    seq(n, _ => 0)
  }

  ghost predicate AllZero(s: seq<int>) {
    forall i | 0 <= i < |s| :: s[i] == 0
  }

  /** A file after s has been written at an offset; a gap before it reads as zeros. */
  function Overwritten(data: seq<int>, offset: nat, s: seq<int>): seq<int> {
    var d := if |data| < offset then data + Zeros(offset - |data|) else data;
    d[..offset] + s + if offset + |s| < |d| then d[offset + |s|..] else []
  }

  /** The calls of the system that come after the next one. */
  function After(script: seq<nat>): seq<nat> {
    if script == [] then [] else script[1..]
  }

  /**
   * An open file: its bytes, where the next write goes, and what the coming calls of the system manage: a seek fails if
   * its number is 0, a write takes no more bytes than its number. Calls beyond the list succeed.
   */
  class OpenFile {
    var data: seq<int>
    var offset: nat
    var script: seq<nat>

    constructor (script: seq<nat>)
      ensures data == [] && offset == 0 && this.script == script
    {
      data, offset, this.script := [], 0, script;
    }

    /** lseek from the current position; it fails before the start of the file. */
    method Seek(n: int) returns (ok: bool)
      modifies this`offset, this`script
      ensures ok <==> old(offset) + n >= 0 && (old(script) == [] || old(script)[0] > 0)
      ensures offset == if ok then old(offset) + n else old(offset)
      ensures script == After(old(script))
    {
      ok := offset + n >= 0 && (script == [] || script[0] > 0);
      if ok {
        offset := offset + n;
      }
      script := After(script);
    }

    /** write, or as much of it as succeeds. */
    method Write(s: seq<int>) returns (w: nat)
      modifies this
      ensures w == (if old(script) == [] then |s| else Smaller(old(script)[0], |s|)) && script == After(old(script))
      ensures data == if w == 0 then old(data) else Overwritten(old(data), old(offset), s[..w])
      ensures offset == old(offset) + w
    {
      w := if script == [] then |s| else Smaller(script[0], |s|);
      if w > 0 {
        data := Overwritten(data, offset, s[..w]);
      }
      offset := offset + w;
      script := After(script);
    }
  }

  /** What is missing at the end of the file are zeros. */
  ghost predicate StandsFor(data: seq<int>, contents: seq<int>) {
    |data| <= |contents| && contents == data + Zeros(|contents| - |data|)
  }

  /**
   * The file stands for these contents: what is missing at its end are zeros, which only happens while the block that
   * is being filled has nothing but zeros in it.
   */
  ghost predicate Holds(data: seq<int>, offset: nat, contents: seq<int>, rem: nat, isempt: bool, sz: nat) {
    && rem <= sz && sz - rem <= |contents|
    && offset == |contents| && StandsFor(data, contents)
    && (isempt <==> AllZero(contents[|contents| - (sz - rem)..]))
    && (!isempt ==> |data| == |contents|)
  }

  /** A new block begins. */
  lemma NewBlock(data: seq<int>, offset: nat, contents: seq<int>, isempt: bool, sz: nat)
    requires Holds(data, offset, contents, 0, isempt, sz)
    ensures Holds(data, offset, contents, sz, true, sz)
  {
  }

  /** Zeros in a block without anything else are skipped. */
  lemma Skipped(data: seq<int>, offset: nat, contents: seq<int>, rem: nat, sz: nat, s: seq<int>)
    requires Holds(data, offset, contents, rem, true, sz) && |s| <= rem && AllZero(s)
    ensures Holds(data, offset + |s|, contents + s, rem - |s|, true, sz)
  {
    var c, n := contents + s, sz - (rem - |s|);
    assert c[|c| - n..] == contents[|contents| - (sz - rem)..] + s;
    assert Zeros(|c| - |data|) == Zeros(|contents| - |data|) + s;
  }

  lemma SomeNonzero(block: seq<int>, s: seq<int>)
    requires !AllZero(block) || !AllZero(s)
    ensures !AllZero(block + s)
  {
    if AllZero(block) {
      var i :| 0 <= i < |s| && s[i] != 0;
      assert (block + s)[|block| + i] == s[i];
    } else {
      var i :| 0 <= i < |block| && block[i] != 0;
      assert (block + s)[i] == block[i];
    }
  }

  /** Anything else is written. */
  lemma Put(data: seq<int>, offset: nat, contents: seq<int>, rem: nat, isempt: bool, sz: nat, s: seq<int>)
    requires Holds(data, offset, contents, rem, isempt, sz) && |s| <= rem && (!isempt || !AllZero(s))
    ensures Holds(Overwritten(data, offset, s), offset + |s|, contents + s, rem - |s|, false, sz)
  {
    hide AllZero;
    var c, n := contents + s, sz - (rem - |s|);
    var block := contents[|contents| - (sz - rem)..];
    SomeNonzero(block, s);
    assert c[|c| - n..] == block + s;
    Appended(data, contents, s);
    assert c == c + Zeros(0);
  }

  /** A write at the end of the contents. */
  lemma Appended(data: seq<int>, contents: seq<int>, s: seq<int>)
    requires StandsFor(data, contents)
    ensures Overwritten(data, |contents|, s) == contents + s
  {
    assert contents[..|contents|] == contents;
  }

  /** A write that stops short. */
  lemma PutPart(data: seq<int>, data': seq<int>, contents: seq<int>, s: seq<int>, w: nat)
    requires StandsFor(data, contents) && w <= |s|
    requires data' == if w == 0 then data else Overwritten(data, |contents|, s[..w])
    ensures StandsFor(data', contents + s[..w])
  {
    if w == 0 {
      assert contents + s[..0] == contents;
    } else {
      Appended(data, contents, s[..w]);
      assert data' + Zeros(0) == data';
    }
  }

  lemma HoldsStands(data: seq<int>, offset: nat, contents: seq<int>, rem: nat, isempt: bool, sz: nat)
    requires Holds(data, offset, contents, rem, isempt, sz)
    ensures StandsFor(data, contents) && offset == |contents| && rem <= sz && sz - rem <= |contents|
  {
    hide AllZero;
  }

  /** How much of the current block is still to come, or all of the next one. */
  function Block(rem: nat, sz: nat): nat {
    if rem == 0 then sz else rem
  }

  /** Zeros in a block of which nothing has been written are skipped. */
  ghost predicate Skips(rem: nat, isempt: bool, s: seq<int>) {
    (rem == 0 || isempt) && AllZero(s)
  }

  /** The next call of the system, a seek or a write of n bytes, will fail. */
  ghost predicate CallFails(script: seq<nat>, seek: bool, n: nat) {
    script != [] && if seek then script[0] == 0 else script[0] < n
  }

  /**
   * The calls of the system that write a stretch of data: either all succeed, and what is left of the script is rest, or
   * the one for the bytes from pos on, in the block that begins at start, fails.
   */
  datatype Calls = AllRight(start: nat, rest: seq<nat>) | FailsAt(pos: nat, start: nat, seek: bool, rest: seq<nat>)

  /**
   * Writing the bytes of s from e on, when the current block begins at b: one call for each stretch up to the end of a
   * block, a seek if the block is zeros so far.
   */
  ghost function CallsOn(s: seq<int>, sz: nat, b: nat, e: nat, script: seq<nat>): (r: Calls)
    requires b <= e < b + sz && e <= |s|
    ensures r.AllRight? ==> r.start <= |s| < r.start + sz && (script == [] ==> r.rest == [])
    ensures r.FailsAt? ==> e <= r.pos < |s| && r.start <= r.pos && script != []
    ensures r.FailsAt? && r.seek ==> AllZero(s[r.start..r.pos])
    decreases |s| - e
  {
    if e == |s| then AllRight(b, script)
    else
      var n := Smaller(|s|, b + sz);
      var seek := AllZero(s[b..n]);
      if CallFails(script, seek, n - e) then
        ZeroFront(s, b, e, n);
        FailsAt(e, b, seek, After(script))
      else CallsOn(s, sz, if n == b + sz then n else b, n, After(script))
  }

  lemma ZeroFront(s: seq<int>, b: nat, e: nat, n: nat)
    requires b <= e <= n <= |s|
    ensures AllZero(s[b..n]) ==> AllZero(s[b..e])
  {
    if AllZero(s[b..n]) {
      forall i | 0 <= i < e - b ensures s[b..e][i] == 0 {
        assert s[b..e][i] == s[b..n][i];
      }
    }
  }

  /** Where the current block begins when rem bytes of it are still to come. */
  function BlockStart(n: nat, rem: nat, sz: nat): nat
    requires rem <= sz && sz - rem <= n
  {
    if rem == 0 then n else n - (sz - rem)
  }

  /**
   * file_write: str goes into the file at the end of what it holds, block by block; got bytes of it when a seek or a
   * write fails, which depends on the calls alone.
   */
  method FileWrite(fd: OpenFile, str: seq<int>, rem0: nat, isempt0: bool, sz: nat, ghost contents: seq<int>)
    returns (n: int, rem: nat, isempt: bool, ghost got: nat)
    requires sz > 0 && Holds(fd.data, fd.offset, contents, rem0, isempt0, sz)
    modifies fd
    ensures got <= |str| && n == if got == |str| then |str| else -1
    ensures n >= 0 ==> Holds(fd.data, fd.offset, contents + str, rem, isempt, sz)
    ensures fd.offset == |contents| + got && StandsFor(fd.data, contents + str[..got])
    ensures n > 0 ==> rem < sz
    ensures var r := CallsOn(contents + str, sz, BlockStart(|contents|, rem0, sz), |contents|, old(fd.script));
      && fd.script == r.rest && (n >= 0 <==> r.AllRight?)
      && (n >= 0 ==> rem <= sz && sz - rem <= |contents| + |str| && BlockStart(|contents| + |str|, rem, sz) == r.start)
      && (n < 0 ==> isempt == r.seek && (r.seek ==> |contents| + got == r.pos))
  {
    hide Holds, AllZero, Skips, CallFails, StandsFor, Overwritten, CallsOn;
    rem, isempt, got := rem0, isempt0, 0;
    var st := 0;
    HoldsStands(fd.data, fd.offset, contents, rem, isempt, sz);
    ghost var s, b, script := contents + str, BlockStart(|contents|, rem0, sz), fd.script;
    assert contents + str[..0] == contents;
    while st < |str|
      invariant 0 <= st <= |str| && rem <= sz && (st > 0 ==> rem < sz)
      invariant Holds(fd.data, fd.offset, contents + str[..st], rem, isempt, sz) && sz - rem <= |contents| + st
      invariant CallsOn(s, sz, b, |contents|, script)
             == CallsOn(s, sz, BlockStart(|contents| + st, rem, sz), |contents| + st, fd.script)
    {
      ghost var data, offset, rem1, isempt1, script1 := fd.data, fd.offset, rem, isempt, fd.script;
      var wcnt, ok;
      ok, wcnt, rem, isempt, got := WriteStep(fd, str, st, rem, isempt, sz, contents);
      OneCall(data, offset, contents, str, st, rem1, isempt1, sz, wcnt, script1);
      if !ok {
        n := -1;
        return;
      }
      st := st + wcnt;
    }
    HoldsStands(fd.data, fd.offset, contents + str[..st], rem, isempt, sz);
    n, got := st, st;
    assert str[..st] == str;
    NoMoreCalls(s, sz, BlockStart(|s|, rem, sz), fd.script);
  }

  lemma NoMoreCalls(s: seq<int>, sz: nat, b: nat, script: seq<nat>)
    requires b <= |s| < b + sz
    ensures CallsOn(s, sz, b, |s|, script) == AllRight(b, script)
  {
  }

  /** What a round of file_write does is one call of those its data need. */
  lemma OneCall(data: seq<int>, offset: nat, contents: seq<int>, str: seq<int>, st: nat, rem: nat, isempt: bool, sz: nat,
                wcnt: nat, script: seq<nat>)
    requires st < |str| && rem <= sz && 0 < sz && wcnt == Smaller(|str| - st, Block(rem, sz))
    requires Holds(data, offset, contents + str[..st], rem, isempt, sz)
    ensures var s, e, rem' := contents + str, |contents| + st, Block(rem, sz) - wcnt;
      && sz - rem <= e && sz - rem' <= e + wcnt
      && var b, seek := BlockStart(e, rem, sz), Skips(rem, isempt, str[st..st + wcnt]);
        CallsOn(s, sz, b, e, script) == if CallFails(script, seek, wcnt) then FailsAt(e, b, seek, After(script))
          else CallsOn(s, sz, BlockStart(e + wcnt, rem', sz), e + wcnt, After(script))
  {
    hide StandsFor, AllZero, Skips, CallFails;
    var s, e, rem' := contents + str, |contents| + st, Block(rem, sz) - wcnt;
    assert sz - rem <= e && sz - rem' <= e + wcnt;
    var b := BlockStart(e, rem, sz);
    ZeroSoFar(data, offset, contents, str, st, rem, isempt, sz, wcnt);
    hide Holds;
    NextCall(s, sz, b, e, e + wcnt, script);
    assert BlockStart(e + wcnt, rem', sz) == if e + wcnt == b + sz then e + wcnt else b;
  }

  lemma NextCall(s: seq<int>, sz: nat, b: nat, e: nat, n: nat, script: seq<nat>)
    requires b <= e < b + sz && e < |s| && n == Smaller(|s|, b + sz)
    ensures CallsOn(s, sz, b, e, script)
         == if CallFails(script, AllZero(s[b..n]), n - e) then FailsAt(e, b, AllZero(s[b..n]), After(script))
            else CallsOn(s, sz, if n == b + sz then n else b, n, After(script))
  {
    hide AllZero, CallFails;
  }

  /** The block is zeros up to the end of the stretch exactly when the stretch is skipped. */
  lemma ZeroSoFar(data: seq<int>, offset: nat, contents: seq<int>, str: seq<int>, st: nat, rem: nat, isempt: bool, sz: nat,
                  wcnt: nat)
    requires st + wcnt <= |str| && rem <= sz && sz - rem <= |contents| + st
    requires Holds(data, offset, contents + str[..st], rem, isempt, sz)
    ensures AllZero((contents + str)[BlockStart(|contents| + st, rem, sz)..|contents| + st + wcnt])
            <==> Skips(rem, isempt, str[st..st + wcnt])
  {
    hide StandsFor;
    var b := BlockStart(|contents| + st, rem, sz);
    BlockSoFar(contents, str, st, b, wcnt);
    var front := (contents + str[..st])[b..];
    assert AllZero(front) <==> rem == 0 || isempt;
    hide AllZero, Holds;
    BothZero(front, str[st..st + wcnt]);
  }

  lemma BlockSoFar(contents: seq<int>, str: seq<int>, st: nat, b: nat, wcnt: nat)
    requires st + wcnt <= |str| && b <= |contents| + st
    ensures (contents + str)[b..|contents| + st + wcnt] == (contents + str[..st])[b..] + str[st..st + wcnt]
  {
    assert contents + str == contents + str[..st] + str[st..];
  }

  lemma BothZero(s: seq<int>, t: seq<int>)
    ensures AllZero(s + t) <==> AllZero(s) && AllZero(t)
  {
    if !AllZero(s) || !AllZero(t) {
      SomeNonzero(s, t);
    }
  }

  /** One round: up to the end of the block, zeros are skipped while the block is empty, and all else is written. */
  method WriteStep(fd: OpenFile, str: seq<int>, st: nat, rem0: nat, isempt0: bool, sz: nat, ghost contents: seq<int>)
    returns (ok: bool, wcnt: nat, rem: nat, isempt: bool, ghost got: nat)
    requires sz > 0 && st < |str| && Holds(fd.data, fd.offset, contents + str[..st], rem0, isempt0, sz)
    modifies fd
    ensures 0 < wcnt && st <= got <= st + wcnt <= |str| && (ok <==> got == st + wcnt)
    ensures old(fd.script) == [] ==> ok
    ensures wcnt == Smaller(|str| - st, Block(rem0, sz)) && fd.script == After(old(fd.script))
    ensures rem == Block(rem0, sz) - wcnt
    ensures isempt == Skips(rem0, isempt0, str[st..st + wcnt])
    ensures ok <==> !CallFails(old(fd.script), isempt, wcnt)
    ensures ok ==> rem < sz && Holds(fd.data, fd.offset, contents + str[..got], rem, isempt, sz)
    ensures !ok && isempt ==> got == st
    ensures fd.offset == |contents| + got && StandsFor(fd.data, contents + str[..got])
  {
    hide Holds, AllZero, StandsFor;
    rem, isempt := rem0, isempt0;
    ghost var now := contents + str[..st];
    HoldsStands(fd.data, fd.offset, now, rem, isempt, sz);
    if rem == 0 {
      NewBlock(fd.data, fd.offset, now, isempt, sz);
      isempt, rem := true, sz;
    }
    wcnt := Smaller(|str| - st, rem);
    ghost var w;
    ok, rem, isempt, w := SkipOrWrite(fd, str[st..st + wcnt], rem, isempt, sz, now);
    got := st + w;
    Slices(contents, str, st, wcnt, w);
  }

  lemma Slices(contents: seq<int>, str: seq<int>, st: nat, wcnt: nat, w: nat)
    requires w <= wcnt && st + wcnt <= |str|
    ensures contents + str[..st] + str[st..st + wcnt][..w] == contents + str[..st + w]
    ensures contents + str[..st] + str[st..st + wcnt] == contents + str[..st + wcnt]
  {
    assert str[..st] + str[st..st + wcnt][..w] == str[..st + w];
    assert str[..st] + str[st..st + wcnt] == str[..st + wcnt];
  }

  /** Part of a block: skipped if it is zeros and nothing of the block has been written, otherwise written. */
  method SkipOrWrite(fd: OpenFile, s: seq<int>, rem0: nat, isempt0: bool, sz: nat, ghost now: seq<int>)
    returns (ok: bool, rem: nat, isempt: bool, ghost w: nat)
    requires 0 < |s| <= rem0 && Holds(fd.data, fd.offset, now, rem0, isempt0, sz)
    modifies fd
    ensures w <= |s| && (ok <==> w == |s|) && fd.script == After(old(fd.script)) && rem == rem0 - |s| < sz
    ensures isempt ==> w == 0 || w == |s|
    ensures isempt == (isempt0 && AllZero(s)) && (ok <==> !CallFails(old(fd.script), isempt, |s|))
    ensures ok ==> Holds(fd.data, fd.offset, now + s, rem, isempt, sz)
    ensures fd.offset == |now| + w && StandsFor(fd.data, now + s[..w])
  {
    hide Holds, AllZero, StandsFor, Overwritten;
    ghost var data, offset := fd.data, fd.offset;
    HoldsStands(data, offset, now, rem0, isempt0, sz);
    assert s[..|s|] == s && now + s[..0] == now;
    var zero := IsZero(s);
    rem, isempt := rem0 - |s|, isempt0 && zero;
    if isempt {
      ok := fd.Seek(|s|);
      w := if ok then |s| else 0;
      Skipped(data, offset, now, rem0, sz, s);
      if ok {
        HoldsStands(fd.data, fd.offset, now + s, rem, isempt, sz);
      }
    } else {
      Put(data, offset, now, rem0, isempt0, sz, s);
      var n := fd.Write(s);
      w, ok := n, n == |s|;
      PutPart(data, fd.data, now, s, w);
    }
  }

  /** The look for a zero filled buffer. */
  method IsZero(s: seq<int>) returns (zero: bool)
    ensures zero <==> AllZero(s)
  {
    var pt := 0;
    while pt < |s| && s[pt] == 0
      invariant 0 <= pt <= |s| && forall i | 0 <= i < pt :: s[i] == 0
    {
      pt := pt + 1;
    }
    zero := pt == |s|;
  }

  /** The seek back and the write of one byte would both succeed. */
  predicate FlushWorks(script: seq<nat>) {
    (script == [] || script[0] > 0) && (After(script) == [] || After(script)[0] > 0)
  }

  /**
   * file_flush: a zero over the last byte of the contents, which makes good the zeros missing before it; nothing if the
   * seek or the write fails.
   */
  method FileFlush(fd: OpenFile, isempt: bool, ghost contents: seq<int>)
    requires fd.offset == |contents| && StandsFor(fd.data, contents)
    modifies fd
    ensures fd.data == if isempt && contents != [] && FlushWorks(old(fd.script)) then contents[|contents| - 1 := 0]
                       else old(fd.data)
  {
    if !isempt {
      return;
    }
    var ok := fd.Seek(-1);
    if !ok {
      return;
    }
    OverLast(fd.data, contents);
    var w := fd.Write([0]);
    assert [0][..1] == [0];
  }

  lemma OverLast(data: seq<int>, contents: seq<int>)
    requires StandsFor(data, contents) && contents != []
    ensures Overwritten(data, |contents| - 1, [0]) == contents[|contents| - 1 := 0]
  {
    var n := |contents|;
    var d := if |data| < n - 1 then data + Zeros(n - 1 - |data|) else data;
    assert d[..n - 1] == contents[..n - 1];
    assert contents[n - 1 := 0] == contents[..n - 1] + [0];
  }

  /** When the last block is all zeros the byte the flush writes is one of them. */
  lemma LastZero(data: seq<int>, contents: seq<int>, rem: nat, isempt: bool, sz: nat)
    requires Holds(data, |contents|, contents, rem, isempt, sz) && (rem < sz || contents == [])
    ensures isempt && contents != [] ==> contents[|contents| - 1 := 0] == contents
    ensures !isempt || contents == [] ==> data == contents
  {
    var n := |contents|;
    if isempt && contents != [] {
      assert contents[n - 1] == contents[n - (sz - rem)..][sz - rem - 1] == 0;
    } else {
      assert data + Zeros(0) == data;
    }
  }

  function Joined(fills: seq<seq<int>>): seq<int> {
    if fills == [] then [] else Joined(fills[..|fills| - 1]) + fills[|fills| - 1]
  }

  lemma {:induction false} JoinedPrefix(fills: seq<seq<int>>, k: nat)
    requires k <= |fills|
    ensures |Joined(fills[..k])| <= |Joined(fills)| && Joined(fills)[..|Joined(fills[..k])|] == Joined(fills[..k])
    decreases |fills| - k
  {
    if k == |fills| {
      assert fills[..k] == fills;
    } else {
      JoinedPrefix(fills, k + 1);
      assert fills[..k + 1][..k] == fills[..k];
    }
  }

  /** The first next buffers have gone into the file, or st_size bytes of them; size bytes are still wanted. */
  ghost predicate Delivered(fills: seq<seq<int>>, next: nat, st_size: nat, size: nat, contents: seq<int>) {
    && next <= |fills| && size <= st_size && |contents| == st_size - size
    && contents == Joined(fills[..next])[..Smaller(st_size, |Joined(fills[..next])|)]
  }

  lemma DeliverOne(fills: seq<seq<int>>, next: nat, st_size: nat, size: nat, contents: seq<int>, cnt: nat)
    requires Delivered(fills, next, st_size, size, contents) && next < |fills| && size > 0
    requires cnt == Smaller(|fills[next]|, size)
    ensures Delivered(fills, next + 1, st_size, size - cnt, contents + fills[next][..cnt])
  {
    assert fills[..next + 1][..next] == fills[..next];
    assert Joined(fills[..next + 1]) == Joined(fills[..next]) + fills[next];
  }

  lemma AllDelivered(fills: seq<seq<int>>, next: nat, st_size: nat, size: nat, contents: seq<int>)
    requires Delivered(fills, next, st_size, size, contents) && (size == 0 || next == |fills|)
    ensures contents == Wanted(fills, st_size)
    ensures size == 0 <==> |Joined(fills)| >= st_size
  {
    JoinedPrefix(fills, next);
    assert fills[..|fills|] == fills;
  }

  /** The checksum of file data: the sum of its bytes. */
  function SumOf(s: seq<int>): int {
    if s == [] then 0 else SumOf(s[..|s| - 1]) + s[|s| - 1]
  }

  lemma SumNext(s: seq<int>, i: nat)
    requires i < |s|
    ensures SumOf(s[..i + 1]) == SumOf(s[..i]) + s[i]
  {
    assert s[..i + 1][..i] == s[..i];
  }

  lemma {:induction false} SumJoined(s: seq<int>, t: seq<int>)
    ensures SumOf(s + t) == SumOf(s) + SumOf(t)
    decreases |t|
  {
    if t == [] {
      assert s + t == s;
    } else {
      SumJoined(s, t[..|t| - 1]);
      assert (s + t)[..|s + t| - 1] == s + t[..|t| - 1];
    }
  }

  /** The loop that adds up what has been written. */
  method AddUp(crc0: int, s: seq<int>) returns (crc: int)
    ensures crc == crc0 + SumOf(s)
  {
    crc := crc0;
    for i := 0 to |s|
      invariant crc == crc0 + SumOf(s[..i])
    {
      SumNext(s, i);
      crc := crc + s[i];
    }
    assert s[..|s|] == s;
  }

  /** The bytes of the archive that belong to the file. */
  ghost function Wanted(fills: seq<seq<int>>, st_size: nat): seq<int> {
    Joined(fills)[..Smaller(st_size, |Joined(fills)|)]
  }

  lemma PrefixWanted(fills: seq<seq<int>>, next: nat, st_size: nat, size: nat, contents: seq<int>, got: nat)
    requires Delivered(fills, next, st_size, size, contents) && next < |fills|
    requires got <= Smaller(|fills[next]|, size)
    ensures contents + fills[next][..got] <= Wanted(fills, st_size)
  {
    JoinedPrefix(fills, next);
    JoinedPrefix(fills, next + 1);
    assert fills[..next + 1][..next] == fills[..next];
    assert Joined(fills[..next + 1]) == Joined(fills[..next]) + fills[next];
  }

  /**
   * Where rd_wrfile stands: size bytes are still wanted, used bytes of the archive are behind it, and the file stands
   * for c. After a failure left is what has not been used, and c may be longer than that by part of a buffer.
   */
  ghost predicate Extracted(fills: seq<seq<int>>, next: nat, st_size: nat, sz: nat, size: nat, left: nat, used: nat,
                            c: seq<int>, data: seq<int>, offset: nat, rem: nat, isem: bool) {
    && used + size == st_size && used <= |c| && c <= Wanted(fills, st_size)
    && offset == |c| && StandsFor(data, c)
    && (left == 0 ==>
          && Delivered(fills, next, st_size, size, c) && used == |c|
          && Holds(data, offset, c, rem, isem, sz) && (c == [] || rem < sz))
    && (left > 0 ==> left == size)
  }

  lemma ExtractNone(fills: seq<seq<int>>, st_size: nat, sz: nat)
    ensures Extracted(fills, 0, st_size, sz, st_size, 0, 0, [], [], 0, sz, true)
  {
    assert fills[..0] == [];
    assert [] + Zeros(0) == [];
  }

  lemma ExtractParts(fills: seq<seq<int>>, next: nat, st_size: nat, sz: nat, size: nat, used: nat, c: seq<int>,
                     data: seq<int>, offset: nat, rem: nat, isem: bool)
    requires Extracted(fills, next, st_size, sz, size, 0, used, c, data, offset, rem, isem)
    ensures next <= |fills| && used == |c| && used + size == st_size && Holds(data, offset, c, rem, isem, sz)
  {
    hide Wanted, Holds, StandsFor;
  }

  /** A buffer, or what is wanted of it, has been dealt with. */
  lemma ExtractOne(fills: seq<seq<int>>, next: nat, st_size: nat, sz: nat, size: nat, c: seq<int>, data: seq<int>,
                   offset: nat, rem: nat, isem: bool, got: nat, data': seq<int>, offset': nat, rem': nat, isem': bool)
    requires Extracted(fills, next, st_size, sz, size, 0, |c|, c, data, offset, rem, isem)
    requires next < |fills| && size > 0 && fills[next] != [] && got <= Smaller(|fills[next]|, size)
    requires offset' == |c| + got && StandsFor(data', c + fills[next][..got])
    ensures var cnt, c' := Smaller(|fills[next]|, size), c + fills[next][..got];
      && (got < cnt ==> Extracted(fills, next, st_size, sz, size, size, |c|, c', data', offset', rem', isem'))
      && (got == cnt && rem' < sz && Holds(data', offset', c', rem', isem', sz) ==>
            Extracted(fills, next + 1, st_size, sz, size - cnt, 0, |c'|, c', data', offset', rem', isem'))
  {
    hide Holds, StandsFor, Joined, Wanted;
    PrefixWanted(fills, next, st_size, size, c, got);
    if got == Smaller(|fills[next]|, size) {
      DeliverOne(fills, next, st_size, size, c, got);
    }
  }

  /** No more is wanted, or there is no more, or it could not be written. */
  lemma ExtractDone(fills: seq<seq<int>>, next: nat, st_size: nat, sz: nat, size: nat, left: nat, used: nat,
                    c: seq<int>, data: seq<int>, offset: nat, rem: nat, isem: bool)
    requires Extracted(fills, next, st_size, sz, size, left, used, c, data, offset, rem, isem)
    requires size == 0 || next == |fills| || left > 0
    ensures used <= |c| && c <= Wanted(fills, st_size) && used + size == st_size && (left > 0 ==> left == size)
    ensures left == 0 ==> c == Wanted(fills, st_size) && used == |c|
    ensures offset == |c| && StandsFor(data, c)
    ensures left == 0 && isem && c != [] ==> c[|c| - 1 := 0] == c
    ensures left == 0 && (!isem || c == []) ==> data == c
  {
    if left == 0 {
      AllDelivered(fills, next, st_size, size, c);
      LastZero(data, c, rem, isem, sz);
    }
  }

  // ---------- when the flush spoils a byte ----------

  /** The calls for all buffers from next on, when c is in the file and size bytes are still wanted. */
  ghost function CallsFrom(fills: seq<seq<int>>, next: nat, size: nat, sz: nat, b: nat, c: seq<int>, script: seq<nat>): (r: Calls)
    requires next <= |fills| && b <= |c| < b + sz
    ensures script == [] ==> r.AllRight? && r.rest == []
    decreases |fills| - next
  {
    if size == 0 || next == |fills| then AllRight(b, script)
    else
      var cnt := Smaller(|fills[next]|, size);
      var s := c + fills[next][..cnt];
      var r := CallsOn(s, sz, b, |c|, script);
      if r.FailsAt? then r else CallsFrom(fills, next + 1, size - cnt, sz, r.start, s, r.rest)
  }

  /** The calls rd_wrfile makes before it flushes. */
  ghost function Extraction(fills: seq<seq<int>>, st_size: nat, sz: nat, script: seq<nat>): Calls
    requires sz > 0
  {
    CallsFrom(fills, 0, st_size, sz, 0, [], script)
  }

  /**
   * The first call to fail is a seek, the byte before it is not zero, and the two calls of the flush succeed: known
   * before any of it is done.
   */
  ghost predicate Loses(fills: seq<seq<int>>, st_size: nat, sz: nat, script: seq<nat>)
    requires sz > 0
  {
    var r := Extraction(fills, st_size, sz, script);
    && r.FailsAt? && r.seek && 0 < r.pos <= |Wanted(fills, st_size)| && Wanted(fills, st_size)[r.pos - 1] != 0
    && FlushWorks(r.rest)
  }

  lemma {:induction false} CallsAligned(s: seq<int>, sz: nat, b: nat, e: nat, script: seq<nat>)
    requires b <= e < b + sz && e <= |s| && b % sz == 0
    ensures CallsOn(s, sz, b, e, script).start % sz == 0
    decreases |s| - e
  {
    if e < |s| {
      var n := Smaller(|s|, b + sz);
      if !CallFails(script, AllZero(s[b..n]), n - e) {
        NextBlock(b, sz);
        CallsAligned(s, sz, if n == b + sz then n else b, n, After(script));
      }
    }
  }

  lemma NextBlock(b: nat, sz: nat)
    requires sz > 0 && b % sz == 0
    ensures (b + sz) % sz == 0
  {
    var q, k, m := b / sz, (b + sz) / sz, (b + sz) % sz;
    assert (q + 1 - k) * sz == m by {
      assert b == q * sz && b + sz == k * sz + m;
    }
    AtLeastOne(q + 1 - k, sz);
  }

  lemma AtLeastOne(x: int, y: nat)
    ensures x >= 1 ==> x * y >= y
    ensures x <= 0 ==> x * y <= 0
  {
    if x >= 1 {
      assert (x - 1) * y >= 0;
    }
  }

  /** What is known of the first call to fail: it lies in what is wanted, and a seek lies in a block of zeros so far. */
  lemma {:induction false} FirstFailure(fills: seq<seq<int>>, next: nat, st_size: nat, size: nat, sz: nat, b: nat,
                                        c: seq<int>, script: seq<nat>)
    requires Delivered(fills, next, st_size, size, c) && b <= |c| < b + sz && b % sz == 0
    ensures var r, w := CallsFrom(fills, next, size, sz, b, c, script), Wanted(fills, st_size);
      r.FailsAt? ==> r.start <= r.pos < |w| && r.start % sz == 0 && (r.seek ==> AllZero(w[r.start..r.pos]))
    decreases |fills| - next
  {
    hide AllZero, Joined, Wanted;
    if size > 0 && next < |fills| {
      var cnt := Smaller(|fills[next]|, size);
      var s, w := c + fills[next][..cnt], Wanted(fills, st_size);
      CallsAligned(s, sz, b, |c|, script);
      PrefixWanted(fills, next, st_size, size, c, cnt);
      var r := CallsOn(s, sz, b, |c|, script);
      if r.FailsAt? {
        assert w[..|s|] == s;
        assert w[r.start..r.pos] == s[r.start..r.pos];
      } else {
        DeliverOne(fills, next, st_size, size, c, cnt);
        hide Delivered, CallsOn;
        FirstFailure(fills, next + 1, st_size, size - cnt, sz, r.start, s, r.rest);
      }
    }
  }

  /** So it is at the start of a block that a byte is lost, and behind a byte that is not zero. */
  lemma LosesAtBlock(fills: seq<seq<int>>, st_size: nat, sz: nat, script: seq<nat>)
    requires sz > 0 && Loses(fills, st_size, sz, script)
    ensures var r := Extraction(fills, st_size, sz, script); r.FailsAt? && r.pos % sz == 0 && r.pos == r.start
  {
    NoneDelivered(fills, st_size);
    FirstFailure(fills, 0, st_size, st_size, sz, 0, [], script);
    var r, w := Extraction(fills, st_size, sz, script), Wanted(fills, st_size);
    ZeroEnd(w, r.start, r.pos);
  }

  lemma ZeroEnd(w: seq<int>, a: nat, b: nat)
    requires a <= b <= |w| && AllZero(w[a..b])
    ensures a < b ==> w[b - 1] == 0
  {
    if a < b {
      assert w[a..b][b - 1 - a] == w[b - 1];
    }
  }

  lemma NoneDelivered(fills: seq<seq<int>>, st_size: nat)
    ensures Delivered(fills, 0, st_size, st_size, [])
  {
    assert fills[..0] == [];
  }

  // ---------- the extraction ----------

  /** What the flush makes of the file. */
  lemma Settled(data: seq<int>, c: seq<int>, data': seq<int>, flushed: bool)
    requires StandsFor(data, c) && data' == if flushed && c != [] then c[|c| - 1 := 0] else data
    ensures !StandsFor(data', c) <==> flushed && c != [] && c[|c| - 1] != 0
    ensures !StandsFor(data', c) ==> data' == c[|c| - 1 := 0]
  {
    if flushed && c != [] {
      assert data' + Zeros(0) == data';
      assert c[|c| - 1] == 0 ==> data' == c;
      assert data'[|c| - 1] == 0;
    }
  }

  /**
   * rd_wrfile: fills are the buffers full of archive data the file is taken from, and st_size its length; used tells how
   * far it moves through the archive, c what the file should then stand for. If nothing fails the file has exactly its
   * bytes, or all there are. If it cannot be written, left is what there is to skip to the next header, and the file
   * begins as it should, but that the flush puts a zero over its last byte in just the cases Loses tells.
   */
  method RdWrFile(ofd: OpenFile, fills: seq<seq<int>>, st_size: nat, sz: nat, docrc: bool, arcnCrc: int)
    returns (ret: int, left: nat, crc: int, mismatch: bool, ghost used: nat, ghost c: seq<int>)
    requires sz > 0 && ofd.data == [] && ofd.offset == 0 && forall i | 0 <= i < |fills| :: fills[i] != []
    modifies ofd
    ensures used <= |c| && c <= Wanted(fills, st_size) && (left == 0 ==> c == Wanted(fills, st_size) && used == |c|)
    ensures left > 0 ==> used + left == st_size
    ensures ret == if left == 0 && used < st_size then -1 else 0
    ensures var r := Extraction(fills, st_size, sz, old(ofd.script));
      (left > 0 <==> r.FailsAt?) && (r.FailsAt? && r.seek ==> |c| == r.pos)
    ensures !StandsFor(ofd.data, c) <==> Loses(fills, st_size, sz, old(ofd.script))
    ensures !StandsFor(ofd.data, c) ==> c != [] && ofd.data == c[|c| - 1 := 0]
    ensures old(ofd.script) == [] ==> left == 0 && ofd.data == c
    ensures crc == if docrc then SumOf(c[..used]) else 0
    ensures mismatch <==> docrc && used == st_size && arcnCrc != crc
  {
    hide *;
    var size: nat, rem: nat, isem, next: nat := st_size, sz, true, 0;
    left, crc, used, c := 0, 0, 0, [];
    NoSum();
    ExtractNone(fills, st_size, sz);
    ghost var script := ofd.script;
    CallsStart(fills, st_size, sz, script);
    while size > 0 && next < |fills| && left == 0
      invariant Extracted(fills, next, st_size, sz, size, left, used, c, ofd.data, ofd.offset, rem, isem)
      invariant next <= |fills| && used <= |c| && crc == if docrc then SumOf(c[..used]) else 0
      invariant Calling(fills, st_size, sz, script, next, size, left, rem, isem, c, ofd.script)
      decreases |fills| - next, if left == 0 then 1 else 0
    {
      ExtractParts(fills, next, st_size, sz, size, used, c, ofd.data, ofd.offset, rem, isem);
      ghost var c0, data, offset, rem0, isem0, script0 := c, ofd.data, ofd.offset, rem, isem, ofd.script;
      HoldsStands(data, offset, c0, rem0, isem0, sz);
      ghost var got;
      var cnt := if |fills[next]| < size then |fills[next]| else size;
      SmallerIs(|fills[next]|, size);
      var str := fills[next][..cnt];
      var res;
      res, rem, isem, got := FileWrite(ofd, str, rem, isem, sz, c);
      assert str[..got] == fills[next][..got];
      ExtractOne(fills, next, st_size, sz, size, c, data, offset, rem0, isem0, got, ofd.data, ofd.offset, rem, isem);
      CallsGoOn(fills, st_size, sz, script, next, size, rem0, isem0, c0, script0, got, rem, isem, ofd.script);
      c := c + str[..got];
      if res <= 0 {
        left := size;
        assert c[..used] == c0[..used];
      } else {
        if docrc {
          crc := AddUp(crc, str);
        }
        size, used, next := size - res, used + cnt, next + 1;
        SumJoined(c0, str);
        assert str[..got] == str && c0[..|c0|] == c0 && c[..used] == c0 + str;
      }
    }
    ExtractDone(fills, next, st_size, sz, size, left, used, c, ofd.data, ofd.offset, rem, isem);
    CallsDone(fills, st_size, sz, script, next, size, left, rem, isem, c, ofd.script);
    WantedLength(fills, st_size);
    ghost var data, works := ofd.data, FlushWorks(ofd.script);
    if isem && st_size > 0 {
      FileFlush(ofd, isem, c);
    }
    Settled(data, c, ofd.data, isem && st_size > 0 && works);
    ret := if size > 0 && left == 0 then -1 else 0;
    mismatch := docrc && size == 0 && arcnCrc != crc;
  }

  /** The calls made so far are those of the extraction. */
  ghost predicate Calling(fills: seq<seq<int>>, st_size: nat, sz: nat, script: seq<nat>, next: nat, size: nat, left: nat,
                          rem: nat, isem: bool, c: seq<int>, now: seq<nat>) {
    && sz > 0 && next <= |fills| && size <= st_size
    && var r := Extraction(fills, st_size, sz, script);
      if left == 0 then
        && rem <= sz && sz - rem <= |c| && (c == [] || rem < sz)
        && r == CallsFrom(fills, next, size, sz, BlockStart(|c|, rem, sz), c, now)
      else r.FailsAt? && now == r.rest && isem == r.seek && (r.seek ==> |c| == r.pos)
  }

  lemma SmallerIs(a: nat, b: nat)
    ensures Smaller(a, b) == if a < b then a else b
  {
  }

  lemma NoSum()
    ensures SumOf([]) == 0
  {
  }

  lemma CallsStart(fills: seq<seq<int>>, st_size: nat, sz: nat, script: seq<nat>)
    requires sz > 0
    ensures Calling(fills, st_size, sz, script, 0, st_size, 0, sz, true, [], script)
  {
    hide CallsFrom;
  }

  lemma CallsGoOn(fills: seq<seq<int>>, st_size: nat, sz: nat, script: seq<nat>, next: nat, size: nat, rem: nat,
                  isem: bool, c: seq<int>, now: seq<nat>, got: nat, rem': nat, isem': bool, now': seq<nat>)
    requires Calling(fills, st_size, sz, script, next, size, 0, rem, isem, c, now) && next < |fills| && size > 0
    requires fills[next] != [] && got <= Smaller(|fills[next]|, size) && rem <= sz && sz - rem <= |c|
    requires var cnt := Smaller(|fills[next]|, size); var s := c + fills[next][..cnt];
      var r := CallsOn(s, sz, BlockStart(|c|, rem, sz), |c|, now);
      && now' == r.rest && (got == cnt <==> r.AllRight?)
      && (got == cnt ==> rem' < sz && sz - rem' <= |s| && BlockStart(|s|, rem', sz) == r.start)
      && (got < cnt ==> isem' == r.seek && (r.seek ==> |c| + got == r.pos))
    ensures var cnt, c' := Smaller(|fills[next]|, size), c + fills[next][..got];
      if got == cnt then Calling(fills, st_size, sz, script, next + 1, size - cnt, 0, rem', isem', c', now')
      else Calling(fills, st_size, sz, script, next, size, size, rem', isem', c', now')
  {
    hide CallsOn, Extraction;
  }

  lemma CallsDone(fills: seq<seq<int>>, st_size: nat, sz: nat, script: seq<nat>, next: nat, size: nat, left: nat,
                  rem: nat, isem: bool, c: seq<int>, now: seq<nat>)
    requires Calling(fills, st_size, sz, script, next, size, left, rem, isem, c, now)
    requires size == 0 || next == |fills| || left > 0
    requires c <= Wanted(fills, st_size) && (left > 0 ==> st_size > 0)
    requires left == 0 && isem && c != [] ==> c[|c| - 1 := 0] == c
    ensures var r := Extraction(fills, st_size, sz, script);
      (left > 0 <==> r.FailsAt?) && (r.FailsAt? && r.seek ==> |c| == r.pos)
    ensures Loses(fills, st_size, sz, script)
            <==> isem && st_size > 0 && FlushWorks(now) && c != [] && c[|c| - 1] != 0
    ensures script == [] ==> left == 0 && now == [] && FlushWorks(now)
  {
    hide Wanted;
  }

  lemma WantedLength(fills: seq<seq<int>>, st_size: nat)
    ensures |Wanted(fills, st_size)| <= st_size
  {
  }

  lemma TwoBuffers(sz: nat, block: seq<int>)
    requires |block| == sz > 0
    ensures Wanted([block, Zeros(sz)], 2 * sz) == block + Zeros(sz)
  {
    var fills := [block, Zeros(sz)];
    assert fills[..1] == [block] && [block][..0] == [];
    assert Joined(fills) == Joined([block]) + Zeros(sz);
    assert Joined([block]) == [] + block;
    assert [] + block == block;
  }

  lemma LostHere(sz: nat, block: seq<int>)
    requires |block| == sz > 0 && block[sz - 1] != 0
    ensures Extraction([block, Zeros(sz)], 2 * sz, sz, [sz, 0]) == FailsAt(sz, sz, true, [])
    ensures Loses([block, Zeros(sz)], 2 * sz, sz, [sz, 0])
  {
    var fills, s := [block, Zeros(sz)], block + Zeros(sz);
    TwoBuffers(sz, block);
    assert [] + fills[0][..sz] == block && block + fills[1][..sz] == s;
    assert block[0..sz][sz - 1] != 0;
    assert s[sz..2 * sz] == Zeros(sz);
    assert After([sz, 0]) == [0] && After([0]) == [];
    hide Wanted;
    assert CallsOn(block, sz, 0, 0, [sz, 0]) == CallsOn(block, sz, sz, sz, [0]) == AllRight(sz, [0]);
    assert CallsOn(s, sz, sz, sz, [0]) == FailsAt(sz, sz, true, []);
    hide CallsOn;
    assert CallsFrom(fills, 1, sz, sz, sz, block, [0]) == FailsAt(sz, sz, true, []);
  }

  /**
   * A block that ends in a byte other than zero, then a block of zeros; the first call of the system writes the one, the
   * second fails to skip the other. The last byte of the first block is lost, whatever the size of blocks.
   */
  method LastByteLost(sz: nat, block: seq<int>) returns (ofd: OpenFile, left: nat)
    requires |block| == sz > 0 && block[sz - 1] != 0
    ensures left >= sz && ofd.data == block[sz - 1 := 0]
  {
    hide Holds, Overwritten, SumOf, Extraction, Loses, Wanted, StandsFor;
    ofd := new OpenFile([sz, 0]);
    ghost var used, c;
    var ret, crc, mismatch;
    ret, left, crc, mismatch, used, c := RdWrFile(ofd, [block, Zeros(sz)], 2 * sz, sz, false, 0);
    LostHere(sz, block);
    TwoBuffers(sz, block);
    assert (block + Zeros(sz))[..sz] == block;
  }
}
