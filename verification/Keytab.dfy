/** src/cdf/modules/authentication/kerberos/krb_ctx.cpp: the keytab reader. The format is given twice, as a serialiser
    and as a cursor function; the readers are proved against the cursor function and that against the serialiser. */
module Keytab {
  import opened Bytes

  const MAX_FILE_SIZE := 1024000000   // the callers refuse longer buffers

  datatype Principal = Principal(realm: bytes, comps: seq<bytes>, nameType: int)
  datatype Entry = Entry(principal: Principal, timestamp: int, vno: nat, enctype: int, key: bytes)

  /** A reader's outcome: the value and the new cursor, or an error. */
  datatype Got<+T> = Fail | Got(v: T, pos: nat)

  // ----- The format as a cursor function -----

  function Raw(buf: bytes, pos: nat, n: nat): (r: Got<bytes>)
    ensures r.Got? ==> |r.v| == n && r.pos == pos + n <= |buf|
  {
    if pos + n > |buf| then Fail else Got(buf[pos..pos + n], pos + n)
  }

  function Num(buf: bytes, pos: nat, n: nat): (r: Got<nat>)
    ensures r.Got? ==> r.v < Pow256(n) && r.pos == pos + n <= |buf|
  {
    match Raw(buf, pos, n)
    case Fail => Fail
    case Got(bs, p) => FromBeBound(bs); Got(FromBe(bs), p)
  }

  function I16(buf: bytes, pos: nat): (r: Got<int>)
    ensures r.Got? ==> -0x8000 <= r.v < 0x8000 && r.pos == pos + 2 <= |buf|
  {
    Pow256Values();
    match Num(buf, pos, 2) case Fail => Fail case Got(v, p) => Got(AsI16(v), p)
  }

  function I32(buf: bytes, pos: nat): (r: Got<int>)
    ensures r.Got? ==> -I32_LIMIT <= r.v < I32_LIMIT && r.pos == pos + 4 <= |buf|
  {
    Pow256Values();
    match Num(buf, pos, 4) case Fail => Fail case Got(v, p) => Got(AsI32(v), p)
  }

  /** A 16-bit length, which must be positive, and that many bytes. */
  function Counted(buf: bytes, pos: nat): (r: Got<bytes>)
    ensures r.Got? ==> pos < r.pos <= |buf|
  {
    match I16(buf, pos)
    case Fail => Fail
    case Got(n, p) => if n <= 0 then Fail else Raw(buf, p, n)
  }

  function Components(buf: bytes, pos: nat, n: nat): (r: Got<seq<bytes>>)
    ensures r.Got? ==> |r.v| == n && pos <= r.pos && (n > 0 ==> r.pos <= |buf|)
    decreases n
  {
    if n == 0 then Got([], pos) else
      match Counted(buf, pos)
      case Fail => Fail
      case Got(c, p) =>
        match Components(buf, p, n - 1)
        case Fail => Fail
        case Got(cs, q) => Got([c] + cs, q)
  }

  function PrincipalAt(buf: bytes, pos: nat): (r: Got<Principal>)
    ensures r.Got? ==> pos < r.pos <= |buf|
  {
    match I16(buf, pos)
    case Fail => Fail
    case Got(count, p) =>
      if count <= 0 then Fail else
        match Counted(buf, p)
        case Fail => Fail
        case Got(realm, p1) =>
          match Components(buf, p1, count)
          case Fail => Fail
          case Got(comps, p2) =>
            match I32(buf, p2)
            case Fail => Fail
            case Got(t, p3) => Got(Principal(realm, comps, t), p3)
  }

  function ContentAt(buf: bytes, pos: nat): (r: Got<Entry>)
    ensures r.Got? ==> pos < r.pos <= |buf|
  {
    match PrincipalAt(buf, pos)
    case Fail => Fail
    case Got(princ, p) =>
      match I32(buf, p)
      case Fail => Fail
      case Got(ts, p1) =>
        match Num(buf, p1, 1)
        case Fail => Fail
        case Got(vno8, p2) =>
          match I16(buf, p2)
          case Fail => Fail
          case Got(enctype, p3) =>
            match Counted(buf, p3)
            case Fail => Fail
            case Got(key, p4) => Got(Entry(princ, ts, vno8, enctype, key), p4)
  }

  /** The size of the next record; holes (negative sizes) are skipped. */
  function SizeAt(buf: bytes, pos: nat): (r: Got<nat>)
    ensures r.Got? ==> r.v < I32_LIMIT && pos + 4 <= r.pos <= |buf|
    decreases |buf| - pos
  {
    match I32(buf, pos)
    case Fail => Fail
    case Got(size, p) =>
      if size >= 0 then Got(size, p)
      else if size == -I32_LIMIT || p - size > |buf| then Fail
      else SizeAt(buf, p - size)
  }

  /** One entry and the cursor after it: the end of the record's declared size. */
  function EntryAt(buf: bytes, pos: nat): (r: Got<Entry>)
    ensures r.Got? ==> r.pos > pos + 4
  {
    match SizeAt(buf, pos)
    case Fail => Fail
    case Got(size, start) =>
      if size == 0 then Fail else
        match ContentAt(buf, start)
        case Fail => Fail
        case Got(e, end) =>
          if end + 4 <= start + size then
            match Num(buf, end, 4)
            case Fail => Fail
            case Got(vno32, p) => Got(if vno32 != 0 then e.(vno := vno32) else e, start + size)
          else if end > start + size then Fail
          else Got(e, start + size)
  }

  /** Every entry before the first record that cannot be read. */
  function EntriesFrom(buf: bytes, pos: nat): seq<Entry>
    decreases |buf| - pos
  {
    match EntryAt(buf, pos)
    case Fail => []
    case Got(e, p) => [e] + (if p > |buf| then [] else EntriesFrom(buf, p))
  }

  // ----- The readers -----

  /** count items of size bytes. On an error the cursor may have moved, but not past the buffer. */
  method KerberosRead(buf: bytes, size: nat, count: nat, pos: nat) returns (cnt: nat, dst: bytes, newPos: nat)
    requires size > 0 && count > 0 && |buf| <= MAX_FILE_SIZE
    ensures cnt != 0 <==> Raw(buf, pos, size * count).Got?
    ensures cnt != 0 ==> Got(dst, newPos) == Raw(buf, pos, size * count)
    ensures newPos == pos || pos < newPos <= |buf|
  {
    cnt, dst, newPos := 0, [], pos;
    var i := 0;
    while i < count
      invariant 0 <= i <= count
      invariant cnt == size * i && newPos == pos + cnt
      invariant i > 0 ==> newPos <= |buf|
      invariant i > 0 ==> pos + cnt <= |buf| && dst == buf[pos..pos + cnt]
      invariant i == 0 ==> dst == []
    {
      MulStep(size, i, count);
      if newPos + size > |buf| {
        cnt := 0;
        return;
      }
      dst := dst + buf[newPos..newPos + size];
      newPos := newPos + size;
      cnt := cnt + size;
      i := i + 1;
    }
  }

  lemma MulStep(size: nat, i: nat, count: nat)
    requires i < count
    ensures size * (i + 1) == size * i + size <= size * count
  {
    var rest := count - (i + 1);
    assert size * count == size * (i + 1) + size * rest;
  }

  /** Skips holes and reads a size. errno is whatever that variable holds when a hole runs past the buffer; when it is 0
      the function reports success with a negative size, which the caller refuses as well. */
  method KerberosReadEntrySize(buf: bytes, keypos: nat, errno: int) returns (error: int, size: int, newPos: nat)
    requires keypos < U32_LIMIT && |buf| <= MAX_FILE_SIZE
    ensures error == 0 && size >= 0 <==> SizeAt(buf, keypos).Got?
    ensures error == 0 && size >= 0 ==> Got(size, newPos) == SizeAt(buf, keypos)
  {
    newPos, size := keypos, -1;
    while size < 0
      invariant newPos < U32_LIMIT
      invariant size < 0 ==> SizeAt(buf, keypos) == SizeAt(buf, newPos)
      invariant size >= 0 ==> SizeAt(buf, keypos) == Got(size, newPos)
      decreases size < 0, |buf| - newPos
    {
      ghost var at := newPos;
      var cnt, bs;
      cnt, bs, newPos := KerberosRead(buf, 4, 1, newPos);
      if cnt == 0 {
        return 1, size, newPos;
      }
      FromBeBound(bs);
      Pow256Values();
      size := AsI32(FromBe(bs));
      assert I32(buf, at) == Got(size, newPos);
      if size < 0 {
        if size == -I32_LIMIT {
          return 1, size, newPos;
        }
        newPos := newPos - size;   // at most 1024000000 + 2147483647: no wrap-around
        if newPos > |buf| {
          return errno, size, newPos;
        }
      }
    }
    error := 0;
  }

  method ReadI16(buf: bytes, keypos: nat) returns (ok: bool, v: int, newPos: nat)
    requires |buf| <= MAX_FILE_SIZE
    ensures ok <==> I16(buf, keypos).Got?
    ensures ok ==> Got(v, newPos) == I16(buf, keypos)
  {
    var cnt, bs;
    cnt, bs, newPos := KerberosRead(buf, 2, 1, keypos);
    ok, v := cnt != 0, 0;
    if ok {
      FromBeBound(bs);
      Pow256Values();
      v := AsI16(FromBe(bs));
    }
  }

  method ReadI32(buf: bytes, keypos: nat) returns (ok: bool, v: int, newPos: nat)
    requires |buf| <= MAX_FILE_SIZE
    ensures ok <==> I32(buf, keypos).Got?
    ensures ok ==> Got(v, newPos) == I32(buf, keypos)
  {
    var cnt, bs;
    cnt, bs, newPos := KerberosRead(buf, 4, 1, keypos);
    ok, v := cnt != 0, 0;
    if ok {
      FromBeBound(bs);
      Pow256Values();
      v := AsI32(FromBe(bs));
    }
  }

  /** KerberosReadEntryPrincipalRealm and KerberosReadEntryPrincipalData, which read the same format. */
  method KerberosReadEntryPrincipalData(buf: bytes, keypos: nat) returns (error: int, data: bytes, newPos: nat)
    requires |buf| <= MAX_FILE_SIZE
    ensures error == 0 <==> Counted(buf, keypos).Got?
    ensures error == 0 ==> Got(data, newPos) == Counted(buf, keypos)
  {
    var ok, princSize;
    data := [];
    ok, princSize, newPos := ReadI16(buf, keypos);
    if !ok || princSize <= 0 {
      return 1, data, newPos;
    }
    var cnt;
    cnt, data, newPos := KerberosRead(buf, 1, princSize, newPos);
    error := if cnt == 0 then 1 else 0;
  }

  function Prepend(cs: seq<bytes>, r: Got<seq<bytes>>): Got<seq<bytes>> {
    match r case Fail => Fail case Got(v, p) => Got(cs + v, p)
  }

  lemma PrependAssoc(cs: seq<bytes>, c: bytes, r: Got<seq<bytes>>)
    ensures Prepend(cs, Prepend([c], r)) == Prepend(cs + [c], r)
    ensures Prepend([], r) == r
  {
    if r.Got? {
      assert cs + ([c] + r.v) == (cs + [c]) + r.v;
      assert [] + r.v == r.v;
    }
  }

  /** The component loop of KerberosReadEntryPrincipal. */
  method ReadComponents(buf: bytes, keypos: nat, count: nat) returns (error: int, comps: seq<bytes>, newPos: nat)
    requires |buf| <= MAX_FILE_SIZE
    ensures error == 0 <==> Components(buf, keypos, count).Got?
    ensures error == 0 ==> Got(comps, newPos) == Components(buf, keypos, count)
  {
    error, comps, newPos := 0, [], keypos;
    var i := 0;
    PrependAssoc([], [], Components(buf, keypos, count));
    while i < count
      invariant 0 <= i <= count
      invariant error == 0 && |comps| == i
      invariant Components(buf, keypos, count) == Prepend(comps, Components(buf, newPos, count - i))
    {
      var comp;
      error, comp, newPos := KerberosReadEntryPrincipalData(buf, newPos);
      if error != 0 {
        return 1, comps, newPos;
      }
      PrependAssoc(comps, comp, Components(buf, newPos, count - i - 1));
      comps := comps + [comp];
      i := i + 1;
    }
    assert comps + [] == comps;
  }

  method KerberosReadEntryPrincipal(buf: bytes, keypos: nat) returns (error: int, princ: Principal, newPos: nat)
    requires |buf| <= MAX_FILE_SIZE
    ensures error == 0 <==> PrincipalAt(buf, keypos).Got?
    ensures error == 0 ==> Got(princ, newPos) == PrincipalAt(buf, keypos)
  {
    princ := Principal([], [], 0);
    var ok, count;
    ok, count, newPos := ReadI16(buf, keypos);
    if !ok || count <= 0 {
      return 1, princ, newPos;
    }
    var realm;
    error, realm, newPos := KerberosReadEntryPrincipalData(buf, newPos);
    if error != 0 {
      return;
    }
    var comps;
    error, comps, newPos := ReadComponents(buf, newPos, count);
    if error != 0 {
      return;
    }
    var nameType;
    ok, nameType, newPos := ReadI32(buf, newPos);
    if !ok {
      return 1, princ, newPos;
    }
    princ := Principal(realm, comps, nameType);
    error := 0;
  }

  method KerberosReadEntryContent(buf: bytes, keypos: nat) returns (error: int, e: Entry, newPos: nat)
    requires |buf| <= MAX_FILE_SIZE
    ensures error == 0 <==> ContentAt(buf, keypos).Got?
    ensures error == 0 ==> Got(e, newPos) == ContentAt(buf, keypos)
  {
    e := Entry(Principal([], [], 0), 0, 0, 0, []);
    var princ;
    error, princ, newPos := KerberosReadEntryPrincipal(buf, keypos);
    if error != 0 {
      return;
    }
    error := 1;
    // KerberosReadEntryTSVNo
    var ok, ts, cnt, bs;
    ok, ts, newPos := ReadI32(buf, newPos);
    if !ok {
      return;
    }
    cnt, bs, newPos := KerberosRead(buf, 1, 1, newPos);
    if cnt == 0 {
      return;
    }
    var vno := FromBe(bs);
    // KerberosReadEntryKey
    var enctype, key;
    ok, enctype, newPos := ReadI16(buf, newPos);
    if !ok {
      return;
    }
    error, key, newPos := KerberosReadEntryPrincipalData(buf, newPos);
    if error != 0 {
      return;
    }
    e := Entry(princ, ts, vno, enctype, key);
  }

  method KerberosReadEntry(buf: bytes, keypos: nat, errno: int) returns (error: int, e: Entry, newPos: nat)
    requires keypos < U32_LIMIT && |buf| <= MAX_FILE_SIZE
    ensures error == 0 <==> EntryAt(buf, keypos).Got?
    ensures error == 0 ==> Got(e, newPos) == EntryAt(buf, keypos) && newPos < U32_LIMIT
  {
    hide ContentAt, SizeAt, FromBe;
    e := Entry(Principal([], [], 0), 0, 0, 0, []);
    var size;
    error, size, newPos := KerberosReadEntrySize(buf, keypos, errno);
    if error != 0 || size <= 0 {
      return 1, e, newPos;
    }
    var startPos := newPos;
    error, e, newPos := KerberosReadEntryContent(buf, newPos);
    if error != 0 {
      return 1, e, newPos;
    }
    var endPos := newPos;
    if endPos + 4 <= size + startPos {
      var cnt, bs;
      cnt, bs, newPos := KerberosRead(buf, 4, 1, newPos);
      if cnt == 0 {
        return 1, e, newPos;
      }
      if FromBe(bs) != 0 {
        e := e.(vno := FromBe(bs));
      }
    }
    if newPos > startPos + size {
      return 1, e, newPos;
    }
    newPos := startPos + size;
  }
}
