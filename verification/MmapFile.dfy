/**
  An append-only file written through memory-mapped windows.  The mapping is shared, so bytes
  copied into the window are bytes of the file; `durable` records which offsets of the file the
  system has been told to put on disk since they were last written.  System calls succeed.
 */
module MmapFile {
  import opened Arithmetic

  type Byte = char

  // ----- page arithmetic -----

  function Pow2(k: nat): (p: nat)
    ensures p >= 1
  {
    if k == 0 then 1 else 2 * Pow2(k - 1)
  }

  /** Bitwise and. */
  function And(a: nat, b: nat): (r: nat)
    ensures r <= a
  {
    if a == 0 || b == 0 then 0
    else 2 * And(a / 2, b / 2) + if a % 2 == 1 && b % 2 == 1 then 1 else 0
  }

  /** Masking with a power of two minus one takes the remainder. */
  lemma {:induction false} MaskIsRemainder(s: nat, k: nat)
    ensures And(s, Pow2(k) - 1) == s % Pow2(k)
    decreases k
  {
    hide And;
    if k == 0 {
      MaskNothing(s);
    } else {
      var p := Pow2(k - 1);
      MaskIsRemainder(s / 2, k - 1);
      MaskHalf(s, p);
      HalfRemainder(s, p);
    }
  }

  lemma MaskNothing(s: nat)
    ensures And(s, 0) == 0 == s % 1
  {
  }

  /** A mask of ones takes the lowest bit and masks the others. */
  lemma MaskHalf(s: nat, p: nat)
    requires p >= 1
    ensures And(s, 2 * p - 1) == 2 * And(s / 2, p - 1) + s % 2
  {
    assert (2 * p - 1) / 2 == p - 1 && (2 * p - 1) % 2 == 1;
  }

  lemma HalfRemainder(s: nat, p: nat)
    requires p >= 1
    ensures s % (2 * p) == 2 * ((s / 2) % p) + s % 2
  {
    var q, r := (s / 2) / p, (s / 2) % p;
    assert s / 2 == q * p + r;
    assert s == 2 * (s / 2) + s % 2;
    assert s == q * (2 * p) + (2 * r + s % 2);
    RemainderUnique(s, 2 * p, q, 2 * r + s % 2);
  }

  predicate IsMultiple(m: nat, p: nat) {
    p >= 1 && m % p == 0
  }

  function Roundup(x: nat, y: nat): nat
    requires y >= 1
  {
    ((x + y - 1) / y) * y
  }

  lemma RoundupIsMultiple(x: nat, y: nat)
    requires y >= 1 && x >= 1
    ensures IsMultiple(Roundup(x, y), y) && x <= Roundup(x, y) < x + y
  {
    var q := (x + y - 1) / y;
    assert x + y - 1 == q * y + (x + y - 1) % y;
    RemainderUnique(q * y, y, q, 0);
  }

  function TruncateToPage(s: nat, page: nat): nat
    requires page >= 1
  {
    s - And(s, page - 1)
  }

  /** The start of the page that holds offset `s`; the page is inside every region of whole pages that `s` is in. */
  lemma TruncateIsPageStart(s: nat, k: nat)
    ensures var p := TruncateToPage(s, Pow2(k));
            && p <= s < p + Pow2(k) && IsMultiple(p, Pow2(k))
            && forall size: nat :: s < size && IsMultiple(size, Pow2(k)) ==> p + Pow2(k) <= size
  {
    hide Pow2, And;
    MaskIsRemainder(s, k);
    PageStart(s, Pow2(k));
  }

  lemma PageStart(s: nat, p: nat)
    requires p >= 1
    ensures s % p <= s && IsMultiple(s - s % p, p)
    ensures forall size: nat :: s < size && IsMultiple(size, p) ==> (s - s % p) + p <= size
  {
    var a := s / p;
    assert s - s % p == a * p;
    RemainderUnique(a * p, p, a, 0);
    forall size: nat | s < size && IsMultiple(size, p) ensures (s - s % p) + p <= size {
      assert size == size / p * p;
      Multiples(a, size / p, p);
    }
  }

  lemma Multiples(a: nat, b: nat, p: nat)
    ensures b <= a ==> b * p <= a * p
    ensures a < b ==> a * p + p <= b * p
  {
    var d := b - a;
    assert b * p == a * p + d * p;
    assert d >= 1 ==> d * p >= p;
    assert d <= 0 ==> d * p <= 0;
  }

  const MEGABYTE := 0x10_0000

  /** The size of the window after one of size `m`. */
  function NextSize(m: nat): nat {
    if m < MEGABYTE then m * 2 else m
  }

  function WindowSize(base: nat, j: nat): nat {
    if j == 0 then base else NextSize(WindowSize(base, j - 1))
  }

  /** With pages of up to 64K the windows are 64K, 128K, 256K, 512K and from then on a megabyte. */
  lemma {:induction false} WindowSizes(j: nat)
    ensures WindowSize(65536, j) == 65536 * Pow2(if j < 4 then j else 4)
  {
    if j > 0 {
      WindowSizes(j - 1);
      assert Pow2(4) == 16 && Pow2(3) == 8 && Pow2(2) == 4 && Pow2(1) == 2;
    }
  }

  /** The offsets from `a` up to `b` are marked. */
  predicate All(marks: seq<bool>, a: nat, b: nat) {
    b <= |marks| && forall o :: a <= o < b ==> marks[o]
  }

  /** Mark the offsets from `a` up to `b`, or take the mark off. */
  function Fill(marks: seq<bool>, a: nat, b: nat, value: bool): (r: seq<bool>)
    requires a <= b <= |marks|
    ensures |r| == |marks| && forall o :: 0 <= o < |r| ==> r[o] == if a <= o < b then value else marks[o]
  {
    marks[..a] + seq(b - a, _ => value) + marks[b..]
  }

  class PosixMmapFile {
    // the file as the system sees it
    var file: seq<Byte>
    ghost var durable: seq<bool>
    // the object; offsets of the pointers are relative to the base of the window
    ghost const k: nat
    const pageSize: nat
    var mapSize: nat
    var mapped: bool
    var limit: nat
    var dst: nat
    var lastSync: nat
    var fileOffset: nat
    var pendingSync: bool

    ghost predicate Valid()
      reads this
    {
      && pageSize == Pow2(k)
      && mapSize >= 1 && IsMultiple(mapSize, pageSize)
      && lastSync <= dst <= limit && IsMultiple(limit, pageSize)
      && (!mapped ==> limit == 0)
      && |file| == fileOffset + limit
      && |durable| == |file| && All(durable, fileOffset, fileOffset + lastSync)
      && (!pendingSync ==> All(durable, 0, fileOffset))
    }

    /** Everything appended so far: closed windows and the filled part of the current one. */
    ghost function Contents(): seq<Byte>
      reads this
      requires Valid()
    {
      file[..fileOffset + dst]
    }

    lemma MarksCover()
      requires Valid()
      ensures |Contents()| <= |durable|
    {
    }

    constructor (pow: nat)
      ensures Valid() && Contents() == [] && k == pow && pageSize == Pow2(pow) && !mapped && !pendingSync
      ensures file == [] && 65536 <= mapSize < 65536 + pageSize
    {
      hide Pow2, Roundup, IsMultiple;
      k := pow;
      pageSize := Pow2(pow);
      RoundupIsMultiple(65536, Pow2(pow));
      ZeroMultiple(Pow2(pow));
      mapSize := Roundup(65536, Pow2(pow));
      file, durable := [], [];
      mapped, limit, dst, lastSync, fileOffset, pendingSync := false, 0, 0, 0, 0, false;
    }

    method UnmapCurrentRegion()
      requires Valid()
      modifies this
      ensures Valid() && !mapped && file == old(file) && durable == old(durable)
      ensures fileOffset == old(fileOffset) + old(limit) && limit == dst == lastSync == 0
      ensures mapSize == if old(mapped) then NextSize(old(mapSize)) else old(mapSize)
      ensures pendingSync <==> old(pendingSync) || old(mapped && lastSync < limit)
    {
      hide Pow2, IsMultiple;
      ZeroMultiple(Pow2(k));
      if mapped {
        if lastSync < limit {
          pendingSync := true;
        }
        fileOffset := fileOffset + limit;
        mapped, limit, lastSync, dst := false, 0, 0, 0;
        if mapSize < MEGABYTE {
          DoubleMultiple(mapSize, pageSize);
          mapSize := mapSize * 2;
        }
      }
    }

    method MapNewRegion()
      requires Valid() && !mapped
      modifies this
      ensures Valid() && mapped && fileOffset == old(fileOffset) && limit == mapSize == old(mapSize)
      ensures dst == lastSync == 0 && pendingSync == old(pendingSync)
      ensures forall o :: fileOffset <= o < |file| ==> file[o] == '\0'
      ensures |file| >= fileOffset && file[..fileOffset] == old(file)
      ensures |durable| == |file| && durable[..fileOffset] == old(durable)
    {
      // the file is extended with zeros to the end of the new window
      file := file + seq(mapSize, _ => '\0');
      durable := durable + seq(mapSize, _ => false);
      mapped, limit, dst, lastSync := true, mapSize, 0, 0;
    }

    /** Copy into the window, that is, into the file. */
    method Copy(data: seq<Byte>)
      requires Valid() && dst + |data| <= limit
      modifies this`file, this`durable, this`dst
      ensures Valid() && dst == old(dst) + |data| && Contents() == old(Contents()) + data
      ensures file[fileOffset + dst..] == old(file)[fileOffset + dst..]
      ensures |durable| == |old(durable)| && durable[..fileOffset + old(dst)] == old(durable[..fileOffset + dst])
    {
      hide Pow2, IsMultiple;
      var at := fileOffset + dst;
      ghost var old_file := file;
      file := file[..at] + data + file[at + |data|..];
      durable := Fill(durable, at, at + |data|, false);
      dst := dst + |data|;
      assert file[..at + |data|] == old_file[..at] + data;
    }

    /** Move on to a new window when the current one is full. */
    method NextRegion()
      requires Valid() && dst == limit
      modifies this
      ensures Valid() && dst < limit && Contents() == old(Contents())
      ensures |durable| >= |old(durable)| && durable[..|old(durable)|] == old(durable)
    {
      UnmapCurrentRegion();
      MapNewRegion();
    }

    /** What was on disk of the bytes appended before stays there. */
    method Append(data: seq<Byte>)
      requires Valid()
      modifies this
      ensures Valid() && Contents() == old(Contents()) + data
      ensures |durable| >= |old(Contents())|
      ensures durable[..|old(Contents())|] == old(durable[..|Contents()|])
    {
      hide Pow2, IsMultiple;
      ghost var count := |Contents()|;
      var src := 0;
      while src < |data|
        invariant 0 <= src <= |data| && Valid()
        invariant Contents() == old(Contents()) + data[..src]
        invariant durable[..count] == old(durable[..|Contents()|])
        decreases |data| - src, limit == dst
      {
        var avail := limit - dst;
        if avail == 0 {
          NextRegion();
        }
        // right after remapping this pass copies nothing: the count was taken before
        var n := if |data| - src <= avail then |data| - src else avail;
        ghost var disk, filled := durable, fileOffset + dst;
        Copy(data[src..src + n]);
        Prefixes(disk, durable, filled, count);
        assert data[..src] + data[src..src + n] == data[..src + n];
        src := src + n;
      }
      assert data[..src] == data;
    }

    /** Flush the pages of the window that hold what was not synced; they all lie inside it. */
    method SyncWindow()
      requires Valid() && dst > lastSync
      modifies this`durable, this`lastSync
      ensures Valid() && lastSync == dst
      ensures forall o :: 0 <= o < |durable| ==> old(durable[o]) ==> durable[o]
    {
      hide Pow2, IsMultiple, TruncateToPage;
      var p1 := TruncateToPage(lastSync, pageSize);
      var p2 := TruncateToPage(dst - 1, pageSize);
      TruncateIsPageStart(lastSync, k);
      TruncateIsPageStart(dst - 1, k);
      assert p1 <= lastSync && dst <= p2 + pageSize <= limit;
      lastSync := dst;
      durable := Fill(durable, fileOffset + p1, fileOffset + p2 + pageSize, true);
    }

    /** Afterwards every appended byte is on disk. */
    method Sync()
      requires Valid()
      modifies this`durable, this`lastSync, this`pendingSync
      ensures Valid() && !pendingSync && lastSync == dst
      ensures Contents() == old(Contents()) && All(durable, 0, |Contents()|)
      ensures forall o :: 0 <= o < |durable| ==> old(durable[o]) ==> durable[o]
    {
      hide Pow2, IsMultiple;
      if pendingSync {
        pendingSync := false;
        durable := Fill(durable, 0, |file|, true);
      }
      if dst > lastSync {
        SyncWindow();
      }
    }

    /** The file ends up holding exactly what was appended.  The method reports failure regardless. */
    method Close() returns (ok: bool)
      requires Valid()
      modifies this
      ensures file == old(Contents()) && !mapped && !ok
      ensures durable == old(durable[..|Contents()|])
    {
      ok := false;
      var unused := limit - dst;
      UnmapCurrentRegion();
      if unused > 0 {
        file := file[..fileOffset - unused];
        durable := durable[..fileOffset - unused];
      }
      mapped, limit := false, 0;
    }
  }

  lemma Prefixes(a: seq<bool>, b: seq<bool>, m: nat, n: nat)
    requires n <= m <= |a| && m <= |b| && a[..m] == b[..m]
    ensures a[..n] == b[..n]
  {
    assert a[..m][..n] == a[..n] && b[..m][..n] == b[..n];
  }

  datatype Op = AppendOp(data: seq<Byte>) | SyncOp

  /** The concatenation of all appends. */
  function Appended(ops: seq<Op>): seq<Byte>
    decreases |ops|
  {
    if ops == [] then []
    else Appended(ops[..|ops| - 1]) + if ops[|ops| - 1].AppendOp? then ops[|ops| - 1].data else []
  }

  /** The operations up to the last sync. */
  function Synced(ops: seq<Op>): seq<Op>
    decreases |ops|
  {
    if ops == [] || ops[|ops| - 1].SyncOp? then ops else Synced(ops[..|ops| - 1])
  }

  lemma {:induction false} SyncedIsPart(ops: seq<Op>)
    ensures Appended(Synced(ops)) <= Appended(ops)
    decreases |ops|
  {
    if ops != [] && ops[|ops| - 1].AppendOp? {
      SyncedIsPart(ops[..|ops| - 1]);
    }
  }

  /**
    After any sequence of appends and syncs and a close, the file is the concatenation of the
    appends, and everything that was appended before the last sync is on disk.
   */
  method WriteFile(pow: nat, ops: seq<Op>) returns (file: seq<Byte>, ghost durable: seq<bool>)
    ensures file == Appended(ops)
    ensures |durable| == |file| && All(durable, 0, |Appended(Synced(ops))|)
  {
    hide PosixMmapFile.Valid, PosixMmapFile.Contents;
    var f := new PosixMmapFile(pow);
    for i := 0 to |ops|
      invariant f.Valid() && f.Contents() == Appended(ops[..i])
      invariant All(f.durable, 0, |Appended(Synced(ops[..i]))|)
    {
      assert ops[..i + 1][..i] == ops[..i];
      SyncedIsPart(ops[..i]);
      f.MarksCover();
      match ops[i]
      case AppendOp(data) =>
        ghost var synced, count, disk := |Appended(Synced(ops[..i]))|, |f.Contents()|, f.durable;
        f.Append(data);
        StillMarked(disk, f.durable, count, synced);
      case SyncOp => f.Sync();
    }
    assert ops[..|ops|] == ops;
    SyncedIsPart(ops);
    f.MarksCover();
    ghost var synced, count, disk := |Appended(Synced(ops))|, |f.Contents()|, f.durable;
    var _ := f.Close();
    file, durable := f.file, f.durable;
    StillMarked(disk, durable, count, synced);
  }

  lemma StillMarked(a: seq<bool>, b: seq<bool>, m: nat, n: nat)
    requires n <= m <= |a| && m <= |b| && a[..m] == b[..m] && All(a, 0, n)
    ensures All(b, 0, n)
  {
    forall o | 0 <= o < n ensures b[o] { assert a[..m][o] == b[..m][o]; }
  }

  lemma ZeroMultiple(p: nat)
    requires p >= 1
    ensures IsMultiple(0, p)
  {
  }

  lemma DoubleMultiple(m: nat, p: nat)
    requires IsMultiple(m, p)
    ensures IsMultiple(m * 2, p)
  {
    var q := m / p;
    assert m == q * p;
    assert m * 2 == (2 * q) * p;
    RemainderUnique(m * 2, p, 2 * q, 0);
  }
}
