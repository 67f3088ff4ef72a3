/**
 The blocked output of tar archives (git-2.15.0/archive-tar.c): records of 512 bytes, written twenty at
 a time.
 */
module ArchiveTar {

  import opened Decimal

  type Byte = b: int | 0 <= b < 256 witness 0

  const RECORDSIZE: nat := 512
  const BLOCKSIZE: nat := 10240

  function Zeros(n: nat): (z: seq<Byte>)
    ensures |z| == n && forall i :: 0 <= i < n ==> z[i] == 0
  {
    seq(n, _ => 0)
  }

  /** How many bytes are missing to a whole number of records. */
  function Gap(n: nat): (g: nat)
    ensures g < RECORDSIZE && (n + g) % RECORDSIZE == 0
  {
    assert (n / RECORDSIZE + 1) * RECORDSIZE == n + (RECORDSIZE - n % RECORDSIZE);
    Whole(n / RECORDSIZE + 1);
    if n % RECORDSIZE == 0 then 0 else RECORDSIZE - n % RECORDSIZE
  }

  lemma NoneFlat(pieces: seq<seq<Byte>>)
    ensures Flat(pieces[..0]) == []
  {
  }

  lemma NoZeros()
    ensures Zeros(0) == []
  {
  }

  lemma Whole(q: nat)
    ensures q * RECORDSIZE % RECORDSIZE == 0
  {
  }

  /** Filled up to a whole number of records. */
  function Padded(data: seq<Byte>): seq<Byte> {
    data + Zeros(Gap(|data|))
  }

  /** Less than a record is added, all zeros, and then the records are whole. */
  lemma PaddedIs(data: seq<Byte>)
    ensures var p := Padded(data);
      |p| % 512 == 0 && |data| <= |p| < |data| + 512 && p[..|data|] == data
      && forall i :: |data| <= i < |p| ==> p[i] == 0
  {
  }

  ghost function Flat(writes: seq<seq<Byte>>): seq<Byte> {
    if writes == [] then [] else Flat(writes[..|writes| - 1]) + writes[|writes| - 1]
  }

  lemma FlatMore(writes: seq<seq<Byte>>, w: seq<Byte>)
    ensures Flat(writes + [w]) == Flat(writes) + w
  {
    assert (writes + [w])[..|writes|] == writes;
  }

  /** What has been written, out of whole blocks, has the length of whole blocks. */
  lemma {:induction false} FlatSize(writes: seq<seq<Byte>>)
    requires forall i :: 0 <= i < |writes| ==> |writes[i]| == BLOCKSIZE
    ensures |Flat(writes)| == BLOCKSIZE * |writes|
  {
    if writes != [] { FlatSize(writes[..|writes| - 1]); }
  }

  /** The end of an archive: at least two records of zeros, up to the end of a block. */
  ghost predicate IsTrailer(t: seq<Byte>) {
    1024 <= |t| < 1024 + 10240 && t == Zeros(|t|)
  }

  class Tar {
    const block: array<Byte>
    var offset: nat
    /** The arguments of the write calls. */
    var writes: seq<seq<Byte>>

    ghost predicate Valid()
      reads this
    {
      block.Length == BLOCKSIZE && offset < BLOCKSIZE && forall i :: 0 <= i < |writes| ==> |writes[i]| == BLOCKSIZE
    }

    /** Everything handed over so far: what was written, and what waits in the block. */
    ghost function Contents(): seq<Byte>
      reads this, block
      requires offset <= block.Length
    {
      Flat(writes) + block[..offset]
    }

    constructor ()
      ensures Valid() && fresh(block) && Contents() == [] && writes == []
    {
      block := new Byte[BLOCKSIZE](_ => 0);
      offset, writes := 0, [];
      new;
      assert block[..0] == [];
    }

    /** write_or_die */
    method Write(data: seq<Byte>)
      modifies this`writes
      ensures writes == old(writes) + [data]
    {
      writes := writes + [data];
    }

    /** memcpy into the block */
    method Copy(at: nat, data: seq<Byte>)
      requires at + |data| <= block.Length
      modifies block
      ensures block[..at] == old(block[..at]) && block[at..at + |data|] == data
      ensures block[at + |data|..] == old(block[at + |data|..])
    {
      var i := 0;
      while i < |data|
        invariant 0 <= i <= |data| && block[..at] == old(block[..at])
        invariant block[at + |data|..] == old(block[at + |data|..])
        invariant forall k :: 0 <= k < i ==> block[at + k] == data[k]
        modifies block
      {
        block[at + i] := data[i];
        i := i + 1;
      }
    }

    /** write_if_needed */
    method WriteIfNeeded()
      requires block.Length == BLOCKSIZE && offset <= BLOCKSIZE
      requires forall i :: 0 <= i < |writes| ==> |writes[i]| == BLOCKSIZE
      modifies this`offset, this`writes
      ensures Valid() && Contents() == old(Contents()) && offset == if old(offset) == BLOCKSIZE then 0 else old(offset)
    {
      if offset == BLOCKSIZE {
        FlatMore(writes, block[..]);
        Write(block[..]);
        offset := 0;
        assert block[..] == block[..BLOCKSIZE];
      }
    }

    /** The first part of do_write_blocked, for a block that is begun: as much as it takes. */
    method TopUp(data: seq<Byte>) returns (rest: seq<Byte>)
      requires Valid() && offset != 0
      modifies this`offset, this`writes, block
      ensures Valid() && Contents() + rest == old(Contents()) + data && (rest != [] ==> offset == 0)
    {
      hide Flat;
      var chunk := BLOCKSIZE - offset;
      if |data| < chunk {
        chunk := |data|;
      }
      Append(data[..chunk]);
      rest := data[chunk..];
      WriteIfNeeded();
    }

    /** do_write_blocked: fills the block, writes whole blocks from the data, and keeps the rest. */
    method DoWriteBlocked(data: seq<Byte>)
      requires Valid()
      modifies this`offset, this`writes, block
      ensures Valid() && Contents() == old(Contents()) + data
    {
      hide Flat;
      var buf := data;
      if offset != 0 {
        buf := TopUp(data);
      }
      while |buf| >= BLOCKSIZE
        invariant Valid() && (buf != [] ==> offset == 0)
        invariant Contents() + buf == old(Contents()) + data
        modifies this`writes
        decreases |buf|
      {
        FlatMore(writes, buf[..BLOCKSIZE]);
        Write(buf[..BLOCKSIZE]);
        assert block[..offset] == [];
        buf := buf[BLOCKSIZE..];
      }
      if buf != [] {
        Copy(offset, buf);
        offset := offset + |buf|;
        assert block[..offset] == buf;
      }
    }

    /** finish_record: zeros up to the end of the record. */
    method FinishRecord()
      requires Valid()
      modifies this`offset, this`writes, block
      ensures Valid() && Contents() == old(Contents()) + Zeros(Gap(|old(Contents())|))
    {
      hide Flat, Gap, Zeros;
      SameGap(writes, block[..offset]);
      GapIs(offset);
      var tail := offset % RECORDSIZE;
      if tail != 0 {
        FitsGap(offset);
        Append(Zeros(RECORDSIZE - tail));
      } else {
        NoZeros();
      }
      WriteIfNeeded();
    }

    /** What fits is put into the block. */
    method Append(data: seq<Byte>)
      requires block.Length == BLOCKSIZE && offset + |data| <= BLOCKSIZE
      modifies this`offset, block
      ensures offset == old(offset) + |data| && Contents() == old(Contents()) + data
    {
      hide Flat;
      Copy(offset, data);
      assert block[..offset + |data|] == block[..offset] + block[offset..offset + |data|];
      offset := offset + |data|;
    }

    /** write_blocked */
    method WriteBlocked(data: seq<Byte>)
      requires Valid()
      modifies this`offset, this`writes, block
      ensures Valid() && Contents() == Padded(old(Contents()) + data)
    {
      DoWriteBlocked(data);
      FinishRecord();
    }

    /** stream_blocked: an object in pieces, as they are read; failed says that the last read failed. */
    method StreamBlocked(pieces: seq<seq<Byte>>, failed: bool) returns (ok: bool)
      requires Valid()
      modifies this`offset, this`writes, block
      ensures Valid() && ok == !failed
      ensures Contents() == if failed then old(Contents()) + Flat(pieces) else Padded(old(Contents()) + Flat(pieces))
    {
      hide Flat, Gap, Zeros;
      var i := 0;
      NoneFlat(pieces);
      while i < |pieces|
        invariant 0 <= i <= |pieces| && Valid() && Contents() == old(Contents()) + Flat(pieces[..i])
      {
        FlatMore(pieces[..i], pieces[i]);
        assert pieces[..i + 1] == pieces[..i] + [pieces[i]];
        DoWriteBlocked(pieces[i]);
        i := i + 1;
      }
      assert pieces[..i] == pieces;
      if !failed {
        FinishRecord();
      }
      return !failed;
    }

    /** write_trailer: zeros to the end of the block, and another block of zeros if they are fewer than two records. */
    method WriteTrailer()
      requires Valid()
      modifies this`writes, block
      ensures exists t :: IsTrailer(t) && Flat(writes) == old(Contents()) + t
      ensures (forall i :: 0 <= i < |writes| ==> |writes[i]| == BLOCKSIZE) && |Flat(writes)| == BLOCKSIZE * |writes|
    {
      hide Flat, IsTrailer;
      var tail := BLOCKSIZE - offset;
      Copy(offset, Zeros(tail));
      assert block[..] == block[..offset] + block[offset..offset + tail];
      FlatMore(writes, block[..]);
      Write(block[..]);
      ghost var t := Zeros(tail);
      if tail < 2 * RECORDSIZE {
        ghost var rest := block[offset..];
        Copy(0, Zeros(offset));
        assert block[..] == block[0..0 + offset] + block[offset..];
        assert block[..] == Zeros(BLOCKSIZE);
        FlatMore(writes, block[..]);
        Write(block[..]);
        t := t + Zeros(BLOCKSIZE);
      }
      TrailerIs(t);
      assert Flat(writes) == old(Contents()) + t;
      FlatSize(writes);
    }

    /**
     The data of a whole archive: every piece of data is written blocked or streamed in pieces, and the
     trailer ends it.
     */
    method WriteAll(items: seq<Item>)
      requires Valid()
      modifies this`offset, this`writes, block
      ensures exists t :: IsTrailer(t) && Flat(writes) == PaddedAll(old(Contents()), items) + t
      ensures (forall i :: 0 <= i < |writes| ==> |writes[i]| == 10240) && |Flat(writes)| % 10240 == 0
    {
      hide Flat, IsTrailer, Padded;
      var i := 0;
      assert items[..0] == [];
      while i < |items|
        invariant 0 <= i <= |items| && Valid() && Contents() == PaddedAll(old(Contents()), items[..i])
      {
        assert items[..i + 1][..i] == items[..i];
        match items[i] {
          case Whole(data) => WriteBlocked(data);
          case Pieces(pieces) => var ok := StreamBlocked(pieces, false);
        }
        i := i + 1;
      }
      assert items[..i] == items;
      WriteTrailer();
    }
  }

  /** What goes into an archive: a header or a small file at once, a large one in pieces. */
  datatype Item = Whole(data: seq<Byte>) | Pieces(pieces: seq<seq<Byte>>)

  ghost function DataOf(item: Item): seq<Byte> {
    match item
    case Whole(data) => data
    case Pieces(pieces) => Flat(pieces)
  }

  /** One item after the other, each filled up to a whole number of records. */
  ghost function PaddedAll(before: seq<Byte>, items: seq<Item>): seq<Byte> {
    if items == [] then before else
    Padded(PaddedAll(before, items[..|items| - 1]) + DataOf(items[|items| - 1]))
  }

  /** In an archive the items do not depend on each other: each is padded by itself. */
  ghost function Records(items: seq<Item>): seq<Byte> {
    if items == [] then [] else Records(items[..|items| - 1]) + Padded(DataOf(items[|items| - 1]))
  }

  lemma {:induction false} EachByItself(items: seq<Item>)
    ensures PaddedAll([], items) == Records(items) && |Records(items)| % RECORDSIZE == 0
  {
    hide Flat, Gap;
    if items != [] {
      EachByItself(items[..|items| - 1]);
      PaddedApart(Records(items[..|items| - 1]), DataOf(items[|items| - 1]));
    }
  }

  /** After whole records only the new data needs filling up. */
  lemma PaddedApart(a: seq<Byte>, b: seq<Byte>)
    requires |a| % RECORDSIZE == 0
    ensures Padded(a + b) == a + Padded(b) && |Padded(a + b)| % RECORDSIZE == 0
  {
    assert (|a| + |b|) % RECORDSIZE == |b| % RECORDSIZE;
    assert a + b + Zeros(Gap(|b|)) == a + (b + Zeros(Gap(|b|)));
  }

  /** The gap depends on what waits in the block only. */
  lemma SameGap(writes: seq<seq<Byte>>, rest: seq<Byte>)
    requires forall i :: 0 <= i < |writes| ==> |writes[i]| == BLOCKSIZE
    ensures Gap(|Flat(writes) + rest|) == Gap(|rest|)
  {
    hide Flat, Gap;
    FlatSize(writes);
    GapAfterBlocks(|writes|, |rest|);
  }

  lemma {:induction false} GapAfterBlocks(k: nat, n: nat)
    ensures Gap(BLOCKSIZE * k + n) == Gap(n)
  {
    if k > 0 {
      GapAfterBlocks(k - 1, n);
      GapAfterOne(BLOCKSIZE * (k - 1) + n);
      assert BLOCKSIZE * k + n == BLOCKSIZE * (k - 1) + n + BLOCKSIZE;
    }
  }

  lemma GapAfterOne(n: nat)
    ensures Gap(n + BLOCKSIZE) == Gap(n)
  {
  }

  lemma GapIs(n: nat)
    ensures Gap(n) == if n % RECORDSIZE == 0 then 0 else RECORDSIZE - n % RECORDSIZE
  {
  }

  lemma FitsGap(n: nat)
    requires n < BLOCKSIZE
    ensures n + (RECORDSIZE - n % RECORDSIZE) <= BLOCKSIZE
  {
  }

  lemma TrailerIs(t: seq<Byte>)
    requires 2 * RECORDSIZE <= |t| < 2 * RECORDSIZE + BLOCKSIZE && forall i :: 0 <= i < |t| ==> t[i] == 0
    ensures IsTrailer(t)
  {
    assert t == Zeros(|t|);
  }

  // ---------------------------------------------------------------------------------------------
  // Extended headers

  function Digits(n: nat): (d: nat)
    ensures d >= 1
  {
    if n < 10 then 1 else 1 + Digits(n / 10)
  }

  lemma {:induction false} DigitsOfDec(n: nat)
    ensures |DecNat(n)| == Digits(n)
  {
    if n >= 10 { DigitsOfDec(n / 10); }
  }

  /** A record with the length that is printed in front. */
  function ExtRecord(len: nat, keyword: string, value: string): string {
    DecNat(len) + " " + keyword + "=" + value + "\n"
  }

  /** The text of a record, as far as it goes without carries. */
  lemma ExtRecordExample()
    ensures ExtRecord(9, "path", "a") == "9 path=a\n" && |ExtRecord(9, "path", "a")| == 9
    ensures ExtRecord(10, "path", "ab") == "10 path=ab\n"
  {
    assert DecNat(1) == "1" && DecNat(9) == "9";
    assert DecNat(10) == DecNat(1) + "0";
  }

  /** The length of a record if the number in front had one digit. */
  function BaseLength(keyword: string, value: string): nat {
    1 + 1 + |keyword| + 1 + |value| + 1
  }

  /**
   strbuf_append_ext_header: the number in front of the record is the length of the whole record if and only
   if the digits it adds to the length do not carry into one digit more; otherwise it is too short, by one.
   */
  method AppendExtHeader(sb: string, keyword: string, value: string) returns (r: string, len: nat)
    ensures r == sb + ExtRecord(len, keyword, value)
    ensures len == |ExtRecord(len, keyword, value)| <==> NoCarry(BaseLength(keyword, value))
    ensures !NoCarry(BaseLength(keyword, value)) ==> len + 1 == |ExtRecord(len, keyword, value)|
  {
    var n := 1 + 1 + |keyword| + 1 + |value| + 1;
    var tmp := n;
    ghost var base := n;
    while tmp > 9
      invariant 0 <= tmp && n + Digits(tmp) == base + Digits(base) && n >= base
      decreases tmp
    {
      tmp := tmp / 10;
      n := n + 1;
    }
    len := n;
    DigitsOfDec(n);
    DigitsGrow(base, n);
    r := sb + (DecNat(n) + " " + keyword + "=" + value + "\n");
  }

  /** Adding the number of further digits leaves the number of digits as it is. */
  predicate NoCarry(base: nat) {
    Digits(base + Digits(base) - 1) == Digits(base)
  }

  /** A number grown by its digits has at most one digit more. */
  lemma DigitsGrow(base: nat, n: nat)
    requires n == base + Digits(base) - 1
    ensures Digits(base) <= Digits(n) <= Digits(base) + 1
  {
    DigitsMonotone(base, n);
    DigitsSmall(base);
    if base > 0 { DigitsMonotone(n, 10 * base); assert 10 * base / 10 == base; }
  }

  lemma {:induction false} DigitsMonotone(a: nat, b: nat)
    requires a <= b
    ensures Digits(a) <= Digits(b)
  {
    if a >= 10 { DigitsMonotone(a / 10, b / 10); }
  }

  lemma {:induction false} DigitsSmall(n: nat)
    ensures Digits(n) - 1 <= n
  {
    if n >= 10 { DigitsSmall(n / 10); }
  }

  /**
   A path of 91 bytes makes a record of 99 bytes, but for the further digits of its length: the code puts 100 in
   front of a record of 101 bytes.
   */
  lemma CarryAt99()
    ensures var path := seq(91, _ => 'a');
      && !NoCarry(BaseLength("path", path)) && BaseLength("path", path) + Digits(BaseLength("path", path)) - 1 == 100
      && |ExtRecord(100, "path", path)| == 101
  {
    var path := seq(91, _ => 'a');
    assert BaseLength("path", path) == 99;
    assert Digits(99) == 2 && Digits(100) == 3;
    DigitsOfDec(100);
  }
}
