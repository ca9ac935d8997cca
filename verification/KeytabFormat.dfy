/** The keytab file format written as a serialiser, and what the cursor function of module Keytab makes of it. */
module KeytabFormat {
  import opened Bytes
  import opened Keytab

  predicate Short(bs: bytes) {
    0 < |bs| < 0x8000
  }

  predicate ValidPrincipal(p: Principal) {
    && Short(p.realm) && 0 < |p.comps| < 0x8000
    && (forall i :: 0 <= i < |p.comps| ==> Short(p.comps[i]))
    && -I32_LIMIT <= p.nameType < I32_LIMIT
  }

  predicate ValidEntry(e: Entry) {
    && ValidPrincipal(e.principal) && -I32_LIMIT <= e.timestamp < I32_LIMIT
    && -0x8000 <= e.enctype < 0x8000 && Short(e.key)
  }

  function I16Bytes(v: int): bytes
    requires -0x8000 <= v < 0x8000
  {
    ToBe(if v < 0 then v + U16_LIMIT else v, 2)
  }

  function I32Bytes(v: int): bytes
    requires -I32_LIMIT <= v < I32_LIMIT
  {
    ToBe(if v < 0 then v + U32_LIMIT else v, 4)
  }

  function CountedBytes(bs: bytes): bytes
    requires Short(bs)
  {
    I16Bytes(|bs|) + bs
  }

  function ComponentsBytes(cs: seq<bytes>): bytes
    requires forall i :: 0 <= i < |cs| ==> Short(cs[i])
  {
    if cs == [] then [] else CountedBytes(cs[0]) + ComponentsBytes(cs[1..])
  }

  function PrincipalBytes(p: Principal): bytes
    requires ValidPrincipal(p)
  {
    I16Bytes(|p.comps|) + (CountedBytes(p.realm) + (ComponentsBytes(p.comps) + I32Bytes(p.nameType)))
  }

  /** Everything of an entry up to its key; the version is the 8-bit one. */
  function ContentBytes(e: Entry, vno8: byte): bytes
    requires ValidEntry(e)
  {
    PrincipalBytes(e.principal) + (I32Bytes(e.timestamp) + ([vno8] + (I16Bytes(e.enctype) + CountedBytes(e.key))))
  }

  /** A hole, or a record whose declared size covers the content and some tail. */
  datatype Item = Hole(gap: bytes) | Record(e: Entry, vno8: byte, tail: bytes)

  /** The version a record carries: a nonzero 32-bit number right after the content, else the 8-bit one. */
  function EffectiveVno(vno8: byte, tail: bytes): nat {
    if |tail| >= 4 && FromBe(tail[..4]) != 0 then FromBe(tail[..4]) else vno8
  }

  predicate ValidItem(it: Item) {
    match it
    case Hole(gap) => 0 < |gap| < I32_LIMIT
    case Record(e, vno8, tail) =>
      && ValidEntry(e)
      && |ContentBytes(e, vno8)| + |tail| < I32_LIMIT
      && e.vno == EffectiveVno(vno8, tail)
  }

  function ItemBytes(it: Item): bytes
    requires ValidItem(it)
  {
    match it
    case Hole(gap) => I32Bytes(-|gap|) + gap
    case Record(e, vno8, tail) => I32Bytes(|ContentBytes(e, vno8)| + |tail|) + (ContentBytes(e, vno8) + tail)
  }

  function FileBytes(items: seq<Item>): bytes
    requires forall i :: 0 <= i < |items| ==> ValidItem(items[i])
  {
    if items == [] then [] else ItemBytes(items[0]) + FileBytes(items[1..])
  }

  function Entries(items: seq<Item>): seq<Entry> {
    if items == [] then []
    else (if items[0].Record? then [items[0].e] else []) + Entries(items[1..])
  }

  // ----- Reading what was written -----

  /** bs stands in buf at pos. */
  predicate At(buf: bytes, pos: nat, bs: bytes) {
    pos + |bs| <= |buf| && buf[pos..pos + |bs|] == bs
  }

  lemma AtSplit(buf: bytes, pos: nat, a: bytes, b: bytes)
    requires At(buf, pos, a + b)
    ensures At(buf, pos, a) && At(buf, pos + |a|, b)
  {
    assert buf[pos..pos + |a|] == (a + b)[..|a|] == a;
    assert buf[pos + |a|..pos + |a + b|] == (a + b)[|a|..] == b;
  }

  lemma NumAt(buf: bytes, pos: nat, v: nat, n: nat)
    requires v < Pow256(n) && At(buf, pos, ToBe(v, n))
    ensures Num(buf, pos, n) == Got(v, pos + n)
  {
    BeRoundTrip(v, n);
  }

  lemma I16At(buf: bytes, pos: nat, v: int)
    requires -0x8000 <= v < 0x8000 && At(buf, pos, I16Bytes(v))
    ensures I16(buf, pos) == Got(v, pos + 2)
  {
    Pow256Values();
    NumAt(buf, pos, if v < 0 then v + U16_LIMIT else v, 2);
  }

  lemma I32At(buf: bytes, pos: nat, v: int)
    requires -I32_LIMIT <= v < I32_LIMIT && At(buf, pos, I32Bytes(v))
    ensures I32(buf, pos) == Got(v, pos + 4)
  {
    Pow256Values();
    NumAt(buf, pos, if v < 0 then v + U32_LIMIT else v, 4);
  }

  lemma CountedAt(buf: bytes, pos: nat, bs: bytes)
    requires Short(bs) && At(buf, pos, CountedBytes(bs))
    ensures Counted(buf, pos) == Got(bs, pos + |CountedBytes(bs)|)
  {
    AtSplit(buf, pos, I16Bytes(|bs|), bs);
    I16At(buf, pos, |bs|);
  }

  lemma {:induction false} ComponentsAt(buf: bytes, pos: nat, cs: seq<bytes>)
    requires forall i :: 0 <= i < |cs| ==> Short(cs[i])
    requires At(buf, pos, ComponentsBytes(cs))
    ensures Components(buf, pos, |cs|) == Got(cs, pos + |ComponentsBytes(cs)|)
    decreases |cs|
  {
    hide CountedBytes, Counted;
    if cs == [] {
    } else {
      var c, rest := CountedBytes(cs[0]), ComponentsBytes(cs[1..]);
      AtSplit(buf, pos, c, rest);
      CountedAt(buf, pos, cs[0]);
      ComponentsAt(buf, pos + |c|, cs[1..]);
      assert [cs[0]] + cs[1..] == cs;
    }
  }

  lemma WrittenPrincipal(buf: bytes, pos: nat, p: Principal)
    requires ValidPrincipal(p) && At(buf, pos, PrincipalBytes(p))
    ensures PrincipalAt(buf, pos) == Got(p, pos + |PrincipalBytes(p)|)
  {
    hide I16, I32, Counted, Components, CountedBytes, ComponentsBytes, I32Bytes;
    var a, b, c, d := I16Bytes(|p.comps|), CountedBytes(p.realm), ComponentsBytes(p.comps), I32Bytes(p.nameType);
    AtSplit(buf, pos, a, b + (c + d));
    I16At(buf, pos, |p.comps|);
    AtSplit(buf, pos + 2, b, c + d);
    CountedAt(buf, pos + 2, p.realm);
    AtSplit(buf, pos + 2 + |b|, c, d);
    ComponentsAt(buf, pos + 2 + |b|, p.comps);
    I32At(buf, pos + 2 + |b| + |c|, p.nameType);
    assert |d| == 4 by { I32Length(p.nameType); }
  }

  lemma I32Length(v: int)
    requires -I32_LIMIT <= v < I32_LIMIT
    ensures |I32Bytes(v)| == 4
  {
  }

  lemma WrittenContent(buf: bytes, pos: nat, e: Entry, vno8: byte)
    requires ValidEntry(e) && At(buf, pos, ContentBytes(e, vno8))
    ensures ContentAt(buf, pos) == Got(e.(vno := vno8), pos + |ContentBytes(e, vno8)|)
  {
    hide I16, I32, Counted, PrincipalAt, CountedBytes, PrincipalBytes, I32Bytes, I16Bytes, ValidPrincipal, Num;
    var a, b := PrincipalBytes(e.principal), I32Bytes(e.timestamp);
    var c, d := I16Bytes(e.enctype), CountedBytes(e.key);
    AtSplit(buf, pos, a, b + ([vno8] + (c + d)));
    WrittenPrincipal(buf, pos, e.principal);
    var p := pos + |a|;
    AtSplit(buf, p, b, [vno8] + (c + d));
    I32Length(e.timestamp);
    I32At(buf, p, e.timestamp);
    AtSplit(buf, p + 4, [vno8], c + d);
    Pow256Values();
    assert ToBe(vno8, 1) == [vno8] by { OneByte(vno8); }
    NumAt(buf, p + 4, vno8, 1);
    AtSplit(buf, p + 5, c, d);
    I16At(buf, p + 5, e.enctype);
    I16Length(e.enctype);
    CountedAt(buf, p + 7, e.key);
  }

  lemma I16Length(v: int)
    requires -0x8000 <= v < 0x8000
    ensures |I16Bytes(v)| == 2
  {
  }

  lemma OneByte(b: byte)
    ensures ToBe(b, 1) == [b]
  {
    assert ToBe(b / 256, 0) == [];
  }

  lemma WrittenRecord(buf: bytes, pos: nat, it: Item)
    requires it.Record? && ValidItem(it) && At(buf, pos, ItemBytes(it))
    ensures EntryAt(buf, pos) == Got(it.e, pos + |ItemBytes(it)|)
  {
    hide I32, ContentAt, ContentBytes, I32Bytes, ValidEntry, EntryAt, Num, SizeAt, At;
    var c, tail := ContentBytes(it.e, it.vno8), it.tail;
    var size := |c| + |tail|;
    I32Length(size);
    AtSplit(buf, pos, I32Bytes(size), c + tail);
    WrittenSize(buf, pos, size);
    AtSplit(buf, pos + 4, c, tail);
    WrittenContent(buf, pos + 4, it.e, it.vno8);
    ContentNotEmpty(it.e, it.vno8);
    if |tail| >= 4 {
      WrittenVersion(buf, pos + 4 + |c|, tail);
    }
    EntryFromParts(buf, pos, size, it.e.(vno := it.vno8), pos + 4 + |c|);
  }

  lemma WrittenSize(buf: bytes, pos: nat, size: nat)
    requires size < I32_LIMIT && At(buf, pos, I32Bytes(size))
    ensures SizeAt(buf, pos) == Got(size, pos + 4)
  {
    hide I32, I32Bytes, At;
    I32At(buf, pos, size);
  }

  lemma WrittenVersion(buf: bytes, end: nat, tail: bytes)
    requires |tail| >= 4 && At(buf, end, tail)
    ensures Num(buf, end, 4) == Got(FromBe(tail[..4]), end + 4)
  {
    AtSplit(buf, end, tail[..4], tail[4..]) by { assert tail == tail[..4] + tail[4..]; }
    FromBeBound(tail[..4]);
  }

  lemma EntryFromParts(buf: bytes, pos: nat, size: nat, e: Entry, end: nat)
    requires SizeAt(buf, pos) == Got(size, pos + 4) && size > 0
    requires ContentAt(buf, pos + 4) == Got(e, end) && end <= pos + 4 + size
    requires end + 4 <= pos + 4 + size ==> Num(buf, end, 4).Got?
    ensures EntryAt(buf, pos) ==
            Got(if end + 4 <= pos + 4 + size && Num(buf, end, 4).v != 0 then e.(vno := Num(buf, end, 4).v) else e,
                pos + 4 + size)
  {
    hide SizeAt, ContentAt, Num;
  }

  lemma ContentNotEmpty(e: Entry, vno8: byte)
    requires ValidEntry(e)
    ensures |ContentBytes(e, vno8)| > 0
  {
  }

  /** A hole is skipped: reading at it is reading after it. */
  lemma WrittenHole(buf: bytes, pos: nat, it: Item)
    requires it.Hole? && ValidItem(it) && At(buf, pos, ItemBytes(it))
    ensures EntryAt(buf, pos) == EntryAt(buf, pos + |ItemBytes(it)|)
  {
    hide I32, ContentAt, I32Bytes;
    I32Length(-|it.gap|);
    AtSplit(buf, pos, I32Bytes(-|it.gap|), it.gap);
    I32At(buf, pos, -|it.gap|);
    assert SizeAt(buf, pos) == SizeAt(buf, pos + 4 + |it.gap|);
  }

  /** Reading a written file gives its entries in order, holes skipped, and a nonzero 32-bit version overrides the
      8-bit one (EffectiveVno inside ValidItem). */
  lemma {:induction false} ReadWrittenFile(buf: bytes, pos: nat, items: seq<Item>)
    requires forall i :: 0 <= i < |items| ==> ValidItem(items[i])
    requires pos <= |buf| && buf[pos..] == FileBytes(items)
    ensures EntriesFrom(buf, pos) == Entries(items)
    decreases |items|
  {
    hide ItemBytes, EntryAt, ValidItem, At;
    if items == [] {
      assert EntryAt(buf, pos) == Fail by { EndOfFile(buf, pos); }
    } else {
      var it, rest := ItemBytes(items[0]), FileBytes(items[1..]);
      FirstItem(buf, pos, it, rest);
      ReadWrittenFile(buf, pos + |it|, items[1..]);
      if items[0].Record? {
        WrittenRecord(buf, pos, items[0]);
      } else {
        WrittenHole(buf, pos, items[0]);
      }
    }
  }

  lemma FirstItem(buf: bytes, pos: nat, it: bytes, rest: bytes)
    requires pos <= |buf| && buf[pos..] == it + rest
    ensures At(buf, pos, it) && pos + |it| <= |buf| && buf[pos + |it|..] == rest
  {
    assert buf[pos + |it|..] == buf[pos..][|it|..];
    assert buf[pos..pos + |it|] == buf[pos..][..|it|];
  }

  lemma EndOfFile(buf: bytes, pos: nat)
    requires pos == |buf|
    ensures EntryAt(buf, pos) == Fail
  {
  }

  // ----- What an accepted entry depends on -----

  predicate SameUpTo(a: bytes, b: bytes, m: nat) {
    m <= |a| && m <= |b| && a[..m] == b[..m]
  }

  lemma LocalRaw(a: bytes, b: bytes, m: nat, pos: nat, n: nat)
    requires SameUpTo(a, b, m) && pos + n <= m
    ensures Raw(a, pos, n) == Raw(b, pos, n) && Num(a, pos, n) == Num(b, pos, n)
  {
    assert a[pos..pos + n] == a[..m][pos..pos + n] == b[..m][pos..pos + n] == b[pos..pos + n];
  }

  lemma LocalCounted(a: bytes, b: bytes, m: nat, pos: nat)
    requires SameUpTo(a, b, m) && Counted(a, pos).Got? && Counted(a, pos).pos <= m
    ensures Counted(b, pos) == Counted(a, pos)
  {
    LocalRaw(a, b, m, pos, 2);
    LocalRaw(a, b, m, pos + 2, I16(a, pos).v);
  }

  lemma {:induction false} LocalComponents(a: bytes, b: bytes, m: nat, pos: nat, n: nat)
    requires SameUpTo(a, b, m) && Components(a, pos, n).Got? && Components(a, pos, n).pos <= m
    ensures Components(b, pos, n) == Components(a, pos, n)
    decreases n
  {
    if n == 0 {
    } else {
      LocalCounted(a, b, m, pos);
      LocalComponents(a, b, m, Counted(a, pos).pos, n - 1);
    }
  }

  lemma LocalContent(a: bytes, b: bytes, m: nat, pos: nat)
    requires SameUpTo(a, b, m) && ContentAt(a, pos).Got? && ContentAt(a, pos).pos <= m
    ensures ContentAt(b, pos) == ContentAt(a, pos)
  {
    hide Counted, Components;
    var p := PrincipalAt(a, pos).pos;
    LocalPrincipal(a, b, m, pos);
    LocalRaw(a, b, m, p, 4);
    LocalRaw(a, b, m, p + 4, 1);
    LocalRaw(a, b, m, p + 5, 2);
    LocalCounted(a, b, m, p + 7);
  }

  lemma LocalPrincipal(a: bytes, b: bytes, m: nat, pos: nat)
    requires SameUpTo(a, b, m) && PrincipalAt(a, pos).Got? && PrincipalAt(a, pos).pos <= m
    ensures PrincipalAt(b, pos) == PrincipalAt(a, pos)
  {
    hide Counted, Components;
    LocalRaw(a, b, m, pos, 2);
    var n := I16(a, pos).v;
    var p := Counted(a, pos + 2).pos;
    LocalCounted(a, b, m, pos + 2);
    LocalComponents(a, b, m, p, n);
    LocalRaw(a, b, m, Components(a, p, n).pos, 4);
  }

  lemma {:induction false} LocalSize(a: bytes, b: bytes, m: nat, pos: nat)
    requires SameUpTo(a, b, m) && SizeAt(a, pos).Got? && SizeAt(a, pos).pos <= m
    ensures SizeAt(b, pos) == SizeAt(a, pos)
    decreases |a| - pos
  {
    LocalRaw(a, b, m, pos, 4);
    var size := I32(a, pos).v;
    if size >= 0 {
    } else {
      LocalSize(a, b, m, pos + 4 - size);
    }
  }

  /** An accepted entry is decided by the bytes before the end of its declared size alone: its content stops there, and
      any buffer that agrees on those bytes yields the same entry and the same cursor. */
  lemma AcceptedInsideDeclaredSize(a: bytes, b: bytes, pos: nat)
    requires EntryAt(a, pos).Got?
    requires SameUpTo(a, b, if EntryAt(a, pos).pos <= |a| then EntryAt(a, pos).pos else |a|)
    ensures EntryAt(b, pos) == EntryAt(a, pos)
    ensures var start := SizeAt(a, pos).pos;
            && EntryAt(a, pos).pos == start + SizeAt(a, pos).v
            && ContentAt(a, start).Got? && ContentAt(a, start).pos <= EntryAt(a, pos).pos
  {
    hide SizeAt, ContentAt;
    var p := EntryAt(a, pos).pos;
    var m := if p <= |a| then p else |a|;
    var start := SizeAt(a, pos).pos;
    var end := ContentAt(a, start).pos;
    LocalSize(a, b, m, pos);
    LocalContent(a, b, m, start);
    if end + 4 <= p {
      LocalRaw(a, b, m, end, 4);
    }
  }

  // ----- What is refused -----

  /** The unsigned number of two bytes. */
  function Number16(buf: bytes, pos: nat): nat
    requires pos + 2 <= |buf|
  {
    buf[pos] as int * 256 + buf[pos + 1] as int
  }

  lemma ShortRead(buf: bytes, pos: nat)
    ensures pos + 2 > |buf| ==> I16(buf, pos) == Fail
    ensures pos + 2 <= |buf| ==>
              var n := Number16(buf, pos); I16(buf, pos) == Got(if n < 32768 then n else n - 65536, pos + 2)
  {
    if pos + 2 <= |buf| {
      Be2(buf[pos], buf[pos + 1]);
      assert buf[pos..pos + 2] == [buf[pos], buf[pos + 1]];
    }
  }

  /** A counted text is read if and only if it has 1 to 32767 bytes, all of them in the buffer. */
  lemma CountedExactly(buf: bytes, pos: nat)
    ensures Counted(buf, pos)
         == if pos + 2 <= |buf| && 1 <= Number16(buf, pos) < 32768 && pos + 2 + Number16(buf, pos) <= |buf| then
              Got(buf[pos + 2..pos + 2 + Number16(buf, pos)], pos + 2 + Number16(buf, pos))
            else Fail
  {
    ShortRead(buf, pos);
  }

  /** A principal that is read has 1 to 32767 components, as many as it announces. */
  lemma PrincipalCount(buf: bytes, pos: nat)
    requires PrincipalAt(buf, pos).Got?
    ensures pos + 2 <= |buf| && 1 <= Number16(buf, pos) == |PrincipalAt(buf, pos).v.comps| < 32768
  {
    hide Counted, Components;
    ShortRead(buf, pos);
  }
}
