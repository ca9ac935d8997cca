/** src/cdf/modules/authentication/kerberos/krb_ctx.cpp: choosing an entry of the keytab by version and recency. */
module KeytabSelect {
  import opened Bytes
  import opened Keytab

  /** The comparison of timestamps is unsigned. */
  function AsU32(v: int): int {
    if v < 0 then v + U32_LIMIT else v
  }

  predicate TSAfter(a: int, b: int) {
    AsU32(a) > AsU32(b)
  }

  /** An 8-bit version below 128 that is not older is taken for one that wrapped around past a version above 128. */
  predicate MoreRecent(k1: Entry, k2: Entry) {
    if !TSAfter(k2.timestamp, k1.timestamp) && k1.vno < 128 && k2.vno > 128 then true
    else if !TSAfter(k1.timestamp, k2.timestamp) && k1.vno > 128 && k2.vno < 128 then false
    else k1.vno > k2.vno
  }

  /** KerberosCompareEntry: the new current entry, and whether the search goes on. */
  function Compare(kvno: nat, cur: Option<Entry>, e: Entry): (Option<Entry>, bool) {
    if kvno == 0 || e.vno == 0 then
      (if cur == None || MoreRecent(e, cur.value) then Some(e) else cur, true)
    else if e.vno == kvno then (Some(e), false)
    else (if e.vno == kvno % 256 && cur == None then Some(e) else cur, true)
  }

  predicate Matches(e: Entry, enctype: int, wanted: Principal -> bool) {
    wanted(e.principal) && (enctype == 0 || enctype == e.enctype)
  }

  /** The search over the readable entries, from the current choice on. */
  function Pick(es: seq<Entry>, kvno: nat, enctype: int, wanted: Principal -> bool, cur: Option<Entry>): Option<Entry> {
    if es == [] then cur
    else if !Matches(es[0], enctype, wanted) then Pick(es[1..], kvno, enctype, wanted, cur)
    else
      var (next, more) := Compare(kvno, cur, es[0]);
      if more then Pick(es[1..], kvno, enctype, wanted, next) else next
  }

  /** krb5_principal_compare is the parameter wanted; errno is what that variable holds at a cursor position. */
  method KerberosGetEntry(buf: bytes, kvno: nat, enctype: int, wanted: Principal -> bool, errno: nat -> int)
    returns (find: bool, entry: Option<Entry>)
    requires |buf| <= MAX_FILE_SIZE
    ensures |buf| < 2 ==> !find && entry == None
    ensures |buf| >= 2 ==> entry == Pick(EntriesFrom(buf, 2), kvno, enctype, wanted, None)
    ensures find <==> entry.Some?
  {
    hide EntryAt;
    var cnt, bs, pos := KerberosRead(buf, 2, 1, 0);
    find, entry := false, None;
    if cnt == 0 {
      return;
    }
    while true
      invariant 2 <= pos < U32_LIMIT && |buf| >= 2
      invariant find <==> entry.Some?
      invariant Pick(EntriesFrom(buf, 2), kvno, enctype, wanted, None)
             == Pick(if pos > |buf| then [] else EntriesFrom(buf, pos), kvno, enctype, wanted, entry)
      decreases if pos > |buf| then 0 else |buf| - pos + 1
    {
      ghost var at := pos;
      var error, e;
      error, e, pos := KerberosReadEntry(buf, pos, errno(pos));
      if error != 0 {
        break;
      }
      if at > |buf| {
        assert false by { PastTheEnd(buf, at); }
      }
      ghost var rest := if pos > |buf| then [] else EntriesFrom(buf, pos);
      assert EntriesFrom(buf, at) == [e] + rest;
      assert ([e] + rest)[1..] == rest;
      if !Matches(e, enctype, wanted) {
        continue;
      }
      var (next, more) := Compare(kvno, entry, e);
      entry := next;
      find := entry.Some?;
      if !more {
        break;
      }
    }
  }

  lemma PastTheEnd(buf: bytes, pos: nat)
    requires pos > |buf|
    ensures EntryAt(buf, pos) == Fail
  {
  }

  // ----- What is chosen when any version will do -----

  /** An entry is found exactly when some readable entry matches. */
  lemma {:induction false} FoundExactly(es: seq<Entry>, enctype: int, wanted: Principal -> bool, cur: Option<Entry>)
    ensures Pick(es, 0, enctype, wanted, cur).Some?
       <==> cur.Some? || exists i :: 0 <= i < |es| && wanted(es[i].principal) && enctype in {0, es[i].enctype}
  {
    if es == [] {
    } else {
      var next := if Matches(es[0], enctype, wanted) then Compare(0, cur, es[0]).0 else cur;
      FoundExactly(es[1..], enctype, wanted, next);
      if i :| 0 <= i < |es| && wanted(es[i].principal) && enctype in {0, es[i].enctype} {
        assert i > 0 ==> es[1..][i - 1] == es[i];
      }
    }
  }

  /** Whatever is found was asked for. */
  lemma {:induction false} FoundIsWanted(es: seq<Entry>, kvno: nat, enctype: int, wanted: Principal -> bool)
    requires Pick(es, kvno, enctype, wanted, None).Some?
    ensures var e := Pick(es, kvno, enctype, wanted, None).value;
            && e in es && wanted(e.principal) && enctype in {0, e.enctype}
            && (kvno != 0 ==> e.vno in {0, kvno, kvno % 256})
  {
    PickFrom(es, kvno, enctype, wanted, None);
  }

  lemma {:induction false} PickFrom(es: seq<Entry>, kvno: nat, enctype: int, wanted: Principal -> bool,
                                    cur: Option<Entry>)
    ensures var r := Pick(es, kvno, enctype, wanted, cur);
            r.Some? && r != cur ==>
              && r.value in es && wanted(r.value.principal) && enctype in {0, r.value.enctype}
              && (kvno != 0 ==> r.value.vno in {0, kvno, kvno % 256})
  {
    if es == [] {
    } else {
      assert es == [es[0]] + es[1..];
      var next := if Matches(es[0], enctype, wanted) then Compare(kvno, cur, es[0]).0 else cur;
      PickFrom(es[1..], kvno, enctype, wanted, next);
    }
  }

  /** Timestamps are compared as unsigned 32-bit numbers: one that was read as negative is later than all others. */
  lemma LaterExactly(a: int, b: int)
    requires -0x8000_0000 <= a < 0x8000_0000 && -0x8000_0000 <= b < 0x8000_0000
    ensures TSAfter(a, b) <==> a % 0x1_0000_0000 > b % 0x1_0000_0000
  {
  }

  /** Of two matching entries the second is chosen if and only if its version is greater, except that a version below
      128 with a timestamp that is not earlier stands above one above 128. */
  lemma OfTwoExactly(a: Entry, b: Entry, enctype: int, wanted: Principal -> bool)
    requires Matches(a, enctype, wanted) && Matches(b, enctype, wanted)
    requires -0x8000_0000 <= a.timestamp < 0x8000_0000 && -0x8000_0000 <= b.timestamp < 0x8000_0000
    ensures var s, t := a.timestamp % 0x1_0000_0000, b.timestamp % 0x1_0000_0000;
            Pick([a, b], 0, enctype, wanted, None) ==
            if || (b.vno < 128 && a.vno > 128 && t >= s)
               || (b.vno > a.vno && !(a.vno < 128 && b.vno > 128 && s >= t))
            then Some(b) else Some(a)
  {
    LaterExactly(a.timestamp, b.timestamp);
    LaterExactly(b.timestamp, a.timestamp);
    var both, last := [a, b], [b];
    assert both[1..] == last && last[1..] == [];
    assert Compare(0, None, a) == (Some(a), true);
    var next := Compare(0, Some(a), b).0;
    assert Pick(both, 0, enctype, wanted, None) == Pick(last, 0, enctype, wanted, Some(a));
    assert Pick(last, 0, enctype, wanted, Some(a)) == Pick([], 0, enctype, wanted, next);
  }

  function Matching(es: seq<Entry>, enctype: int, wanted: Principal -> bool): seq<Entry> {
    if es == [] then []
    else (if Matches(es[0], enctype, wanted) then [es[0]] else []) + Matching(es[1..], enctype, wanted)
  }

  lemma {:induction false} InMatching(es: seq<Entry>, enctype: int, wanted: Principal -> bool, e: Entry)
    ensures e in Matching(es, enctype, wanted) <==> e in es && Matches(e, enctype, wanted)
  {
    if es == [] {
    } else {
      assert es == [es[0]] + es[1..];
      InMatching(es[1..], enctype, wanted, e);
    }
  }

  /** i is the first index of a greatest version. */
  predicate FirstGreatest(es: seq<Entry>, i: int) {
    0 <= i < |es| && forall j :: 0 <= j < |es| ==> es[j].vno <= es[i].vno && (j < i ==> es[j].vno < es[i].vno)
  }

  /** v is at most 128, or every entry of version v has a later timestamp than every one below 128. */
  ghost predicate NoneWraps(ms: seq<Entry>, v: nat) {
    v <= 128 || forall g, l :: g in ms && l in ms && g.vno == v && l.vno < 128 ==> TSAfter(g.timestamp, l.timestamp)
  }

  /** Then the choice is the first matching entry of the greatest version. */
  lemma ChoosesFirstGreatest(es: seq<Entry>, enctype: int, wanted: Principal -> bool, i: nat)
    requires FirstGreatest(Matching(es, enctype, wanted), i)
    requires NoneWraps(Matching(es, enctype, wanted), Matching(es, enctype, wanted)[i].vno)
    ensures Pick(es, 0, enctype, wanted, None) == Some(Matching(es, enctype, wanted)[i])
  {
    PickMatching(es, enctype, wanted, None);
    FoldReaches(Matching(es, enctype, wanted), None, Matching(es, enctype, wanted), i);
  }

  /** The choice folded over entries that all match. */
  function Fold(ms: seq<Entry>, cur: Option<Entry>): Option<Entry> {
    if ms == [] then cur else Fold(ms[1..], Compare(0, cur, ms[0]).0)
  }

  lemma {:induction false} PickMatching(es: seq<Entry>, enctype: int, wanted: Principal -> bool, cur: Option<Entry>)
    ensures Pick(es, 0, enctype, wanted, cur) == Fold(Matching(es, enctype, wanted), cur)
  {
    if es == [] {
    } else {
      var rest := Matching(es[1..], enctype, wanted);
      assert ([es[0]] + rest)[1..] == rest && [] + rest == rest;
      PickMatching(es[1..], enctype, wanted, if Matches(es[0], enctype, wanted) then Compare(0, cur, es[0]).0 else cur);
    }
  }

  /** A greatest entry is kept to the end. */
  lemma {:induction false} FoldKeeps(all: seq<Entry>, cur: Entry, ms: seq<Entry>)
    requires NoneWraps(all, cur.vno) && cur in all && forall e :: e in ms ==> e in all && e.vno <= cur.vno
    ensures Fold(ms, Some(cur)) == Some(cur)
  {
    if ms == [] {
    } else {
      assert ms[0] in ms && !MoreRecent(ms[0], cur);
      FoldKeeps(all, cur, ms[1..]);
    }
  }

  /** From a lesser choice on, or none, the first greatest entry is chosen. */
  lemma {:induction false} FoldReaches(all: seq<Entry>, cur: Option<Entry>, ms: seq<Entry>, i: nat)
    requires FirstGreatest(ms, i) && NoneWraps(all, ms[i].vno) && forall e :: e in ms ==> e in all
    requires cur.Some? ==> cur.value in all && cur.value.vno < ms[i].vno
    ensures Fold(ms, cur) == Some(ms[i])
    decreases i
  {
    var next := Compare(0, cur, ms[0]).0;
    assert ms[0] in all && ms[i] in all;
    if i == 0 {
      assert next == Some(ms[0]);
      assert forall e :: e in ms[1..] ==> e in ms;
      FoldKeeps(all, ms[0], ms[1..]);
    } else {
      assert ms[1..][i - 1] == ms[i];
      FoldReaches(all, next, ms[1..], i - 1);
    }
  }

  /** Whatever the order of the entries, one of version v is chosen. */
  ghost predicate EveryOrderChooses(es: seq<Entry>, enctype: int, wanted: Principal -> bool, v: nat) {
    forall fs :: multiset(fs) == multiset(es) ==> ChoosesVersion(fs, enctype, wanted, v)
  }

  predicate ChoosesVersion(es: seq<Entry>, enctype: int, wanted: Principal -> bool, v: nat) {
    var e := Pick(es, 0, enctype, wanted, None);
    e.Some? && e.value.vno == v
  }

  ghost predicate Greatest(ms: seq<Entry>, v: nat) {
    (exists e :: e in ms && e.vno == v) && forall e :: e in ms ==> e.vno <= v
  }

  /** The greatest matching version is chosen in every order of the entries if and only if it is at most 128, or each of
      its entries has a later timestamp than each matching entry below 128. */
  lemma GreatestInEveryOrderExactly(es: seq<Entry>, enctype: int, wanted: Principal -> bool, v: nat)
    requires Greatest(Matching(es, enctype, wanted), v)
    ensures EveryOrderChooses(es, enctype, wanted, v) <==> NoneWraps(Matching(es, enctype, wanted), v)
  {
    hide Pick, Matches, NoneWraps, Greatest;
    if NoneWraps(Matching(es, enctype, wanted), v) {
      forall fs | multiset(fs) == multiset(es) ensures ChoosesVersion(fs, enctype, wanted, v) {
        OrderDoesNotMatter(es, fs, enctype, wanted, v);
      }
    } else {
      var fs := LosesGreatest(es, enctype, wanted, v);
    }
  }

  lemma SameMatching(es: seq<Entry>, fs: seq<Entry>, enctype: int, wanted: Principal -> bool)
    requires multiset(fs) == multiset(es)
    ensures forall e :: e in Matching(fs, enctype, wanted) <==> e in Matching(es, enctype, wanted)
  {
    hide Matching;
    forall e ensures e in Matching(fs, enctype, wanted) <==> e in Matching(es, enctype, wanted) {
      InMatching(es, enctype, wanted, e);
      InMatching(fs, enctype, wanted, e);
      assert e in es <==> e in multiset(es);
      assert e in fs <==> e in multiset(fs);
    }
  }

  lemma OrderDoesNotMatter(es: seq<Entry>, fs: seq<Entry>, enctype: int, wanted: Principal -> bool, v: nat)
    requires Greatest(Matching(es, enctype, wanted), v) && NoneWraps(Matching(es, enctype, wanted), v)
    requires multiset(fs) == multiset(es)
    ensures ChoosesVersion(fs, enctype, wanted, v)
  {
    hide Matching, Pick;
    SameMatching(es, fs, enctype, wanted);
    var ms := Matching(fs, enctype, wanted);
    var i := FirstOf(ms, v);
    ChoosesFirstGreatest(fs, enctype, wanted, i);
  }

  lemma {:induction false} FirstOf(ms: seq<Entry>, v: nat) returns (i: nat)
    requires Greatest(ms, v)
    ensures FirstGreatest(ms, i) && ms[i].vno == v
  {
    if ms[0].vno == v {
      i := 0;
    } else {
      var g :| g in ms && g.vno == v;
      assert g in ms[1..];
      var k := FirstOf(ms[1..], v);
      i := k + 1;
      assert forall j :: 1 <= j < |ms| ==> ms[j] == ms[1..][j - 1];
    }
  }

  /** The entries whose version is v, or is not. */
  function Versions(es: seq<Entry>, v: nat, same: bool): seq<Entry> {
    if es == [] then []
    else (if (es[0].vno == v) == same then [es[0]] else []) + Versions(es[1..], v, same)
  }

  lemma {:induction false} VersionsSplit(es: seq<Entry>, v: nat)
    ensures multiset(Versions(es, v, true)) + multiset(Versions(es, v, false)) == multiset(es)
    ensures forall e :: e in Versions(es, v, true) <==> e in es && e.vno == v
    ensures forall e :: e in Versions(es, v, false) <==> e in es && e.vno != v
  {
    if es == [] {
    } else {
      assert es == [es[0]] + es[1..];
      VersionsSplit(es[1..], v);
    }
  }

  lemma ToFront(s: seq<Entry>, e: Entry) returns (t: seq<Entry>)
    requires e in s
    ensures multiset(t) == multiset(s) && t != [] && t[0] == e && forall x :: x in t <==> x in s
  {
    var i :| 0 <= i < |s| && s[i] == e;
    t := [e] + (s[..i] + s[i + 1..]);
    assert s == s[..i] + [e] + s[i + 1..];
  }

  lemma {:induction false} MatchingAppend(x: seq<Entry>, y: seq<Entry>, enctype: int, wanted: Principal -> bool)
    ensures Matching(x + y, enctype, wanted) == Matching(x, enctype, wanted) + Matching(y, enctype, wanted)
  {
    hide Matches;
    if x == [] {
      assert x + y == y;
    } else {
      assert (x + y)[0] == x[0] && (x + y)[1..] == x[1..] + y;
      MatchingAppend(x[1..], y, enctype, wanted);
      var head := if Matches(x[0], enctype, wanted) then [x[0]] else [];
      var a, b := Matching(x[1..], enctype, wanted), Matching(y, enctype, wanted);
      assert Matching(x, enctype, wanted) == head + a;
      assert Matching(x + y, enctype, wanted) == head + (a + b) == (head + a) + b;
    }
  }

  /** Entries of version v, then an entry below 128 that is not older than the first of them, then lesser ones. */
  lemma FoldLoses(p: seq<Entry>, q: seq<Entry>, v: nat)
    requires p != [] && q != [] && v > 128 && q[0].vno < 128 && !TSAfter(p[0].timestamp, q[0].timestamp)
    requires (forall e :: e in p ==> e.vno == v) && forall e :: e in q ==> e.vno < v
    ensures var r := Fold(p + q, None); r.Some? && r.value.vno < v
  {
    assert p[0] in p && q[0] in q;
    assert (p + q)[0] == p[0] && (p + q)[1..] == p[1..] + q;
    FoldStays(p[0], p[1..], q);
    FoldLess(q[0], q[1..], v);
  }

  lemma {:induction false} FoldStays(cur: Entry, p: seq<Entry>, q: seq<Entry>)
    requires forall e :: e in p ==> e.vno == cur.vno
    ensures Fold(p + q, Some(cur)) == Fold(q, Some(cur))
  {
    if p == [] {
      assert p + q == q;
    } else {
      assert p[0] in p && (p + q)[0] == p[0] && (p + q)[1..] == p[1..] + q;
      FoldStays(cur, p[1..], q);
    }
  }

  lemma {:induction false} FoldLess(cur: Entry, q: seq<Entry>, v: nat)
    requires cur.vno < v && forall e :: e in q ==> e.vno < v
    ensures var r := Fold(q, Some(cur)); r.Some? && r.value.vno < v
    decreases |q|
  {
    if q == [] {
    } else {
      assert q[0] in q;
      FoldLess(Compare(0, Some(cur), q[0]).0.value, q[1..], v);
    }
  }

  /** An order that loses version v: an entry g of it, the others of it, an entry below 128 that g is not later than,
      and then the rest. */
  lemma LosesGreatest(es: seq<Entry>, enctype: int, wanted: Principal -> bool, v: nat) returns (fs: seq<Entry>)
    requires Greatest(Matching(es, enctype, wanted), v) && !NoneWraps(Matching(es, enctype, wanted), v)
    ensures multiset(fs) == multiset(es) && !ChoosesVersion(fs, enctype, wanted, v)
  {
    hide Matching, Matches, Fold, Pick;
    var ms := Matching(es, enctype, wanted);
    var g, l :| g in ms && l in ms && g.vno == v && l.vno < 128 && !TSAfter(g.timestamp, l.timestamp);
    InMatching(es, enctype, wanted, g);
    InMatching(es, enctype, wanted, l);
    VersionsSplit(es, v);
    var x := ToFront(Versions(es, v, true), g);
    var y := ToFront(Versions(es, v, false), l);
    fs := x + y;
    var p, q := Matching(x, enctype, wanted), Matching(y, enctype, wanted);
    MatchingHead(x, enctype, wanted);
    MatchingHead(y, enctype, wanted);
    forall e | e in p ensures e.vno == v { InMatching(x, enctype, wanted, e); }
    forall e | e in q ensures e.vno < v {
      InMatching(y, enctype, wanted, e);
      InMatching(es, enctype, wanted, e);
    }
    MatchingAppend(x, y, enctype, wanted);
    PickMatching(fs, enctype, wanted, None);
    FoldLoses(p, q, v);
  }

  lemma MatchingHead(x: seq<Entry>, enctype: int, wanted: Principal -> bool)
    requires x != [] && Matches(x[0], enctype, wanted)
    ensures var p := Matching(x, enctype, wanted); p != [] && p[0] == x[0]
  {
  }

  /** Across 128 the relation is not transitive, so the choice depends on the order of the entries. */
  lemma RecencyIsCyclicAcross128(p: Principal, wanted: Principal -> bool)
    requires wanted(p)
    ensures var a, b, c := Entry(p, 0, 200, 0, []), Entry(p, 1, 100, 0, []), Entry(p, 5, 150, 0, []);
            && MoreRecent(b, a) && MoreRecent(c, b) && MoreRecent(a, c)
            && Pick([a, b, c], 0, 0, wanted, None) == Some(c)
            && Pick([b, c, a], 0, 0, wanted, None) == Some(a)
  {
    var a, b, c := Entry(p, 0, 200, 0, []), Entry(p, 1, 100, 0, []), Entry(p, 5, 150, 0, []);
    PickThree(a, b, c, wanted);
    PickThree(b, c, a, wanted);
  }

  lemma PickThree(x: Entry, y: Entry, z: Entry, wanted: Principal -> bool)
    requires MoreRecent(y, x) && MoreRecent(z, y)
    requires wanted(x.principal) && wanted(y.principal) && wanted(z.principal)
    ensures Pick([x, y, z], 0, 0, wanted, None) == Some(z)
  {
    assert [x, y, z][1..] == [y, z] && [y, z][1..] == [z] && [z][1..] == [];
    assert Pick([z], 0, 0, wanted, Some(y)) == Some(z);
    assert Pick([y, z], 0, 0, wanted, Some(x)) == Some(z);
  }

  // ----- What is chosen when a version is asked for -----

  /** Version 0 stands for any, and 8-bit versions are compared with the last eight bits of the one asked for. */
  predicate Acceptable(e: Entry, kvno: nat) {
    e.vno == 0 || e.vno == kvno || e.vno == kvno % 256
  }

  /** An entry is found exactly when some readable entry matches and is acceptable. */
  lemma {:induction false} FoundForVersionExactly(es: seq<Entry>, kvno: nat, enctype: int, wanted: Principal -> bool,
                                                  cur: Option<Entry>)
    requires kvno != 0
    ensures Pick(es, kvno, enctype, wanted, cur).Some?
       <==> cur.Some? || exists i :: 0 <= i < |es| && Matches(es[i], enctype, wanted) && Acceptable(es[i], kvno)
  {
    hide Matches;
    if es == [] {
    } else {
      var next := if Matches(es[0], enctype, wanted) then Compare(kvno, cur, es[0]).0 else cur;
      FoundForVersionExactly(es[1..], kvno, enctype, wanted, next);
      if i :| 0 <= i < |es| && Matches(es[i], enctype, wanted) && Acceptable(es[i], kvno) {
        assert i > 0 ==> es[1..][i - 1] == es[i];
      }
    }
  }

  /** No matching entry has exactly the version. */
  predicate NoneExact(es: seq<Entry>, kvno: nat, enctype: int, wanted: Principal -> bool) {
    forall i :: 0 <= i < |es| && Matches(es[i], enctype, wanted) ==> es[i].vno != kvno
  }

  /** An entry of version 0 that takes the place of a chosen one with a version above 128. */
  predicate Displaces(e: Entry, cur: Entry, enctype: int, wanted: Principal -> bool) {
    Matches(e, enctype, wanted) && e.vno == 0 && cur.vno > 128 && !TSAfter(cur.timestamp, e.timestamp)
  }

  /** j is the first entry after i that displaces it, or i itself when there is none. */
  predicate Final(es: seq<Entry>, i: int, j: int, enctype: int, wanted: Principal -> bool) {
    && 0 <= i <= j < |es|
    && (forall k :: i < k < |es| && (k < j || i == j) ==> !Displaces(es[k], es[i], enctype, wanted))
    && (i < j ==> Displaces(es[j], es[i], enctype, wanted))
  }

  /** Without an entry of exactly the version, the choice is the first acceptable entry, unless its version is above 128
      and a later entry of version 0 is not older: then it is the first of those. */
  lemma {:induction false} ChosenWithoutExact(es: seq<Entry>, kvno: nat, enctype: int, wanted: Principal -> bool,
                                              i: nat, j: nat)
    requires kvno != 0 && NoneExact(es, kvno, enctype, wanted) && Final(es, i, j, enctype, wanted)
    requires Matches(es[i], enctype, wanted) && Acceptable(es[i], kvno)
    requires forall k :: 0 <= k < i && Matches(es[k], enctype, wanted) ==> !Acceptable(es[k], kvno)
    ensures Pick(es, kvno, enctype, wanted, None) == Some(es[j])
    decreases i
  {
    hide Matches;
    var rest := es[1..];
    assert forall k :: 0 <= k < |rest| ==> rest[k] == es[k + 1];
    if i > 0 {
      ChosenWithoutExact(rest, kvno, enctype, wanted, i - 1, j - 1);
    } else {
      StaysOrYields(rest, kvno, enctype, wanted, es[0], j - 1);
    }
  }

  /** From an acceptable choice on; j is the first entry that displaces it, or -1. */
  lemma {:induction false} StaysOrYields(es: seq<Entry>, kvno: nat, enctype: int, wanted: Principal -> bool, cur: Entry,
                                         j: int)
    requires kvno != 0 && NoneExact(es, kvno, enctype, wanted) && -1 <= j < |es|
    requires forall k :: 0 <= k < |es| && (k < j || j == -1) ==> !Displaces(es[k], cur, enctype, wanted)
    requires j >= 0 ==> Displaces(es[j], cur, enctype, wanted)
    ensures Pick(es, kvno, enctype, wanted, Some(cur)) == Some(if j == -1 then cur else es[j])
  {
    hide Matches;
    if es == [] {
    } else {
      var rest := es[1..];
      assert forall k :: 0 <= k < |rest| ==> rest[k] == es[k + 1];
      if j == 0 {
        StaysOrYields(rest, kvno, enctype, wanted, es[0], -1);
      } else {
        StaysOrYields(rest, kvno, enctype, wanted, cur, if j == -1 then -1 else j - 1);
      }
    }
  }

  /** With a version asked for, the first matching entry of exactly that version wins over everything else. */
  lemma {:induction false} ExactVersionWins(es: seq<Entry>, kvno: nat, enctype: int, wanted: Principal -> bool,
                                            cur: Option<Entry>, i: nat)
    requires kvno != 0 && i < |es| && Matches(es[i], enctype, wanted) && es[i].vno == kvno
    requires forall j :: 0 <= j < i ==> !(Matches(es[j], enctype, wanted) && es[j].vno == kvno)
    ensures Pick(es, kvno, enctype, wanted, cur) == Some(es[i])
    decreases i
  {
    if i == 0 {
    } else {
      var next := if Matches(es[0], enctype, wanted) then Compare(kvno, cur, es[0]).0 else cur;
      ExactVersionWins(es[1..], kvno, enctype, wanted, next, i - 1);
    }
  }
}
