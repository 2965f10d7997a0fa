/** The kernel log and its parser: ekm-common/ekm_log_buf.c, ekm-linux-2.6/ekm_log.c,
    crash/LogMgr.C and crash/Log.h.

    Integers are written least significant byte first, by writer and reader: those of the
    header in four bytes, others in the width that their field has. */
module LogBuffers {

  import opened Basics

  type Byte = b: int | 0 <= b < 256

  type Word = n: int | 0 <= n < 0x1_0000_0000

  const MAGIC: Word := 0xF12C0109

  /* ---- pages ---- */

  ghost function Joined(pages: seq<seq<Byte>>): seq<Byte> {
    if pages == [] then [] else Joined(pages[..|pages| - 1]) + pages[|pages| - 1]
  }

  /** All pages but the last are full, and no page is empty or over-full. */
  ghost predicate Filled(pages: seq<seq<Byte>>, capacity: nat) {
    && (forall i :: 0 <= i < |pages| ==> 0 < |pages[i]| <= capacity)
    && forall i :: 0 <= i < |pages| - 1 ==> |pages[i]| == capacity
  }

  lemma JoinedNewPage(pages: seq<seq<Byte>>, page: seq<Byte>)
    ensures Joined(pages + [page]) == Joined(pages) + page
  {
    assert (pages + [page])[..|pages|] == pages;
  }

  lemma JoinedGrowPage(pages: seq<seq<Byte>>, more: seq<Byte>)
    requires pages != []
    ensures var n := |pages| - 1; Joined(pages[n := pages[n] + more]) == Joined(pages) + more
  {
    var n := |pages| - 1;
    var now := pages[n := pages[n] + more];
    assert now[..n] == pages[..n];
    assert Joined(pages[..n]) + (pages[n] + more) == Joined(pages[..n]) + pages[n] + more;
  }

  lemma FilledNewPage(pages: seq<seq<Byte>>, capacity: nat, page: seq<Byte>)
    requires Filled(pages, capacity) && 0 < |page| <= capacity
    requires pages == [] || |pages[|pages| - 1]| >= capacity
    ensures Filled(pages + [page], capacity)
  {
  }

  lemma FilledGrowPage(pages: seq<seq<Byte>>, capacity: nat, more: seq<Byte>)
    requires Filled(pages, capacity) && pages != [] && |pages[|pages| - 1]| + |more| <= capacity
    ensures var n := |pages| - 1; Filled(pages[n := pages[n] + more], capacity)
  {
  }

  class EkmLog {
    const capacity: nat
    var pages: seq<seq<Byte>>
    var size: nat
    var lsn: Word

    ghost predicate Valid()
      reads this`pages, this`size
    {
      capacity > 0 && Filled(pages, capacity) && size == |Joined(pages)|
    }

    constructor (capacity: nat)
      requires capacity > 0
      ensures Valid() && pages == [] && lsn == 0 && this.capacity == capacity
    {
      this.capacity := capacity;
      pages, size, lsn := [], 0, 0;
    }

    /** log_add_buf: fills the current page and adds pages as needed. */
    method AddBuf(data: seq<Byte>)
      requires Valid()
      modifies this`pages, this`size
      ensures Valid() && Joined(pages) == old(Joined(pages)) + data
    {
      var done := 0;
      assert old(Joined(pages)) + data[..0] == Joined(pages);
      while done < |data|
        invariant done <= |data| && Valid() && Joined(pages) == old(Joined(pages)) + data[..done]
      {
        var newPage := pages == [] || |pages[|pages| - 1]| >= capacity;
        var available := if newPage then capacity else capacity - |pages[|pages| - 1]|;
        var copy := if |data| - done > available then available else |data| - done;
        Extend(data, done, copy, old(Joined(pages)));
        AddPart(data[done..done + copy], newPage);
        done := done + copy;
      }
      assert data[..done] == data;
    }

    /** Bytes that fit the current page, or a new one. */
    method AddPart(part: seq<Byte>, newPage: bool)
      requires Valid() && 0 < |part| <= capacity
      requires newPage <==> pages == [] || |pages[|pages| - 1]| >= capacity
      requires !newPage ==> |pages[|pages| - 1]| + |part| <= capacity
      modifies this`pages, this`size
      ensures Valid() && Joined(pages) == old(Joined(pages)) + part
    {
      if newPage {
        JoinedNewPage(pages, part);
        FilledNewPage(pages, capacity, part);
        pages := pages + [part];
      } else {
        JoinedGrowPage(pages, part);
        FilledGrowPage(pages, capacity, part);
        pages := pages[|pages| - 1 := pages[|pages| - 1] + part];
      }
      size := size + |part|;
    }

    /** copy_log_buffer: all bytes in order, and an empty log; nothing when it does not fit. */
    method CopyLogBuffer(room: nat) returns (ok: bool, buffer: seq<Byte>)
      requires Valid()
      modifies this`pages, this`size
      ensures Valid() && (ok <==> |old(Joined(pages))| <= room)
      ensures !ok ==> unchanged(this) && buffer == []
      ensures ok ==> buffer == old(Joined(pages)) && pages == []
    {
      buffer := [];
      if size > room {
        return false, buffer;
      }
      var rest := pages;
      pages, size := [], 0;
      for i := 0 to |rest|
        invariant Valid() && pages == [] && buffer == Joined(rest[..i])
      {
        assert rest[..i + 1][..i] == rest[..i];
        buffer := buffer + rest[i];
      }
      assert rest[..|rest|] == rest;
      return true, buffer;
    }

    method EmptyLog()
      requires Valid()
      modifies this
      ensures Valid() && pages == [] && lsn == 0
    {
      pages, size, lsn := [], 0, 0;
    }
  }

  lemma Extend(data: seq<Byte>, done: nat, copy: nat, base: seq<Byte>)
    requires done + copy <= |data|
    ensures base + data[..done + copy] == base + data[..done] + data[done..done + copy]
  {
    assert data[..done + copy] == data[..done] + data[done..done + copy];
  }

  /* ---- fields ---- */

  function IntBytes(n: Word): (b: seq<Byte>)
    ensures |b| == 4
  {
    [n % 256, n / 256 % 256, n / 65536 % 256, n / 16777216 % 256]
  }

  function IntOf(b: seq<Byte>): Word
    requires |b| >= 4
  {
    (b[0] as int) + 256 * (b[1] as int) + 65536 * (b[2] as int) + 16777216 * (b[3] as int)
  }

  lemma Digits(n: Word)
    ensures n % 256 + 256 * (n / 256 % 256) + 65536 * (n / 65536 % 256) + 16777216 * (n / 16777216 % 256) == n
  {
    assert n / 65536 == n / 256 / 256 && n / 16777216 == n / 65536 / 256;
  }

  lemma IntRoundTrip(n: Word, rest: seq<Byte>)
    ensures IntOf(IntBytes(n) + rest) == n && (IntBytes(n) + rest)[4..] == rest
  {
    var b := IntBytes(n) + rest;
    assert b[0] == n % 256 && b[1] == n / 256 % 256 && b[2] == n / 65536 % 256 && b[3] == n / 16777216 % 256;
    assert b[4..] == rest;
    Digits(n);
  }

  /** A number in so many bytes. */
  function NumBytes(n: nat, width: nat): (b: seq<Byte>)
    ensures |b| == width
  {
    if width == 0 then [] else [n % 256] + NumBytes(n / 256, width - 1)
  }

  function NumOf(b: seq<Byte>, width: nat): nat
    requires |b| >= width
  {
    if width == 0 then 0 else (b[0] as int) + 256 * NumOf(b[1..], width - 1)
  }

  function Limit(width: nat): nat {
    if width == 0 then 1 else 256 * Limit(width - 1)
  }

  lemma {:induction false} NumRoundTrip(n: nat, width: nat, rest: seq<Byte>)
    requires n < Limit(width)
    ensures NumOf(NumBytes(n, width) + rest, width) == n && (NumBytes(n, width) + rest)[width..] == rest
  {
    var b := NumBytes(n, width) + rest;
    assert b[width..] == rest;
    if width > 0 {
      assert b[0] == n % 256 && b[1..] == NumBytes(n / 256, width - 1) + rest;
      NumRoundTrip(n / 256, width - 1, rest);
    }
  }

  /** An int, an integer of another width, or a buffer with its length. */
  datatype FieldKind = IntK | NumK(width: nat) | BufK

  datatype Value = IntV(n: Word) | NumV(num: nat, width: nat) | BufV(bytes: seq<Byte>)

  /** The fields of each type of record after its header, the same for writer and reader. */
  type Layout = Word -> seq<FieldKind>

  function FieldsOf(layout: Layout, t: Word): seq<FieldKind> {
    layout(t)
  }

  predicate Conforms(values: seq<Value>, kinds: seq<FieldKind>) {
    |values| == |kinds| && forall i :: 0 <= i < |values| ==>
      match values[i]
      case IntV(_) => kinds[i].IntK?
      case NumV(num, width) => kinds[i] == NumK(width) && num < Limit(width)
      case BufV(bytes) => kinds[i].BufK? && |bytes| < 0x1_0000_0000
  }

  datatype Record = Record(kind: Word, lsn: Word, pid: Word, values: seq<Value>)

  function ValueBytes(v: Value): seq<Byte>
    requires v.BufV? ==> |v.bytes| < 0x1_0000_0000
  {
    match v
    case IntV(n) => IntBytes(n)
    case NumV(num, width) => NumBytes(num, width)
    case BufV(bytes) => IntBytes(|bytes|) + bytes
  }

  predicate Writable(values: seq<Value>) {
    forall i :: 0 <= i < |values| && values[i].BufV? ==> |values[i].bytes| < 0x1_0000_0000
  }

  function ValuesBytes(values: seq<Value>): seq<Byte>
    requires Writable(values)
  {
    if values == [] then [] else ValueBytes(values[0]) + ValuesBytes(values[1..])
  }

  function Header(r: Record): seq<Byte> {
    IntBytes(r.kind) + (IntBytes(r.lsn) + (IntBytes(r.pid) + IntBytes(MAGIC)))
  }

  function RecordBytes(r: Record): seq<Byte>
    requires Writable(r.values)
  {
    Header(r) + ValuesBytes(r.values)
  }

  /* ---- parsing ---- */

  function ParseValue(b: seq<Byte>, k: FieldKind): (r: Option<(Value, seq<Byte>)>)
    ensures r.Some? ==> |r.value.1| <= |b|
  {
    if k.NumK? then
      if |b| < k.width then None else Some((NumV(NumOf(b, k.width), k.width), b[k.width..]))
    else if |b| < 4 then None
    else if k.IntK? then Some((IntV(IntOf(b)), b[4..]))
    else
      var n := IntOf(b);
      if |b| - 4 < n then None else Some((BufV(b[4..4 + n]), b[4 + n..]))
  }

  function ParseValues(b: seq<Byte>, kinds: seq<FieldKind>): (r: Option<(seq<Value>, seq<Byte>)>)
    ensures r.Some? ==> |r.value.1| <= |b|
    decreases kinds
  {
    if kinds == [] then Some(([], b))
    else
      match ParseValue(b, kinds[0])
      case None => None
      case Some((v, rest)) =>
        match ParseValues(rest, kinds[1..])
        case None => None
        case Some((vs, tail)) => Some(([v] + vs, tail))
  }

  function ParseRecord(layout: Layout, b: seq<Byte>): (r: Option<(Record, seq<Byte>)>)
    ensures r.Some? ==> |r.value.1| < |b|
  {
    if |b| < 16 || IntOf(b[12..]) != MAGIC then None
    else
      match ParseValues(b[16..], FieldsOf(layout, IntOf(b)))
      case None => None
      case Some((vs, rest)) => Some((Record(IntOf(b), IntOf(b[4..]), IntOf(b[8..]), vs), rest))
  }

  lemma ValueRoundTrip(v: Value, k: FieldKind, rest: seq<Byte>)
    requires Conforms([v], [k])
    ensures v.BufV? ==> |v.bytes| < 0x1_0000_0000
    ensures ParseValue(ValueBytes(v) + rest, k) == Some((v, rest))
  {
    assert [v][0] == v && [k][0] == k;
    match v
    case IntV(n) => IntRoundTrip(n, rest);
    case NumV(num, width) => NumRoundTrip(num, width, rest);
    case BufV(bytes) =>
      var b := ValueBytes(v) + rest;
      assert b == IntBytes(|bytes|) + (bytes + rest);
      IntRoundTrip(|bytes|, bytes + rest);
      assert b[4..4 + |bytes|] == bytes;
      assert b[4 + |bytes|..] == rest;
  }

  lemma WritableIf(values: seq<Value>, kinds: seq<FieldKind>)
    requires Conforms(values, kinds)
    ensures Writable(values)
  {
  }

  lemma ConformsTail(values: seq<Value>, kinds: seq<FieldKind>)
    requires Conforms(values, kinds) && values != []
    ensures Conforms([values[0]], [kinds[0]]) && Conforms(values[1..], kinds[1..])
    ensures [values[0]] + values[1..] == values
  {
  }

  lemma {:induction false} ValuesRoundTrip(values: seq<Value>, kinds: seq<FieldKind>, rest: seq<Byte>)
    requires Conforms(values, kinds)
    ensures Writable(values) && ParseValues(ValuesBytes(values) + rest, kinds) == Some((values, rest))
    decreases values
  {
    WritableIf(values, kinds);
    if values == [] {
      assert [] + rest == rest;
    } else {
      var tail := ValuesBytes(values[1..]) + rest;
      ConformsTail(values, kinds);
      ValuesRoundTrip(values[1..], kinds[1..], rest);
      ValueRoundTrip(values[0], kinds[0], tail);
      Assoc(ValueBytes(values[0]), ValuesBytes(values[1..]), rest);
    }
  }

  /* ---- records ---- */

  predicate Fits(layout: Layout, r: Record) {
    Conforms(r.values, FieldsOf(layout, r.kind))
  }

  lemma HeaderParts(r: Record, rest: seq<Byte>)
    ensures var b := Header(r) + rest;
      && |b| >= 16 && IntOf(b) == r.kind && IntOf(b[4..]) == r.lsn && IntOf(b[8..]) == r.pid
      && IntOf(b[12..]) == MAGIC && b[16..] == rest
  {
    var d := IntBytes(MAGIC) + rest;
    var c := IntBytes(r.pid) + d;
    var a := IntBytes(r.lsn) + c;
    var b := Header(r) + rest;
    assert b == IntBytes(r.kind) + a;
    IntRoundTrip(r.kind, a);
    IntRoundTrip(r.lsn, c);
    IntRoundTrip(r.pid, d);
    IntRoundTrip(MAGIC, rest);
    assert b[8..] == b[4..][4..] && b[12..] == b[8..][4..] && b[16..] == b[12..][4..];
  }

  /** A record is read back as it was written, whatever follows it. */
  lemma RecordRoundTrip(layout: Layout, r: Record, rest: seq<Byte>)
    requires Fits(layout, r)
    ensures Writable(r.values) && ParseRecord(layout, RecordBytes(r) + rest) == Some((r, rest))
  {
    ValuesRoundTrip(r.values, FieldsOf(layout, r.kind), rest);
    var tail := ValuesBytes(r.values) + rest;
    assert RecordBytes(r) + rest == Header(r) + tail;
    HeaderParts(r, tail);
  }

  ghost predicate AllFit(layout: Layout, rs: seq<Record>) {
    forall i :: 0 <= i < |rs| ==> Fits(layout, rs[i])
  }

  ghost function LogBytes(layout: Layout, rs: seq<Record>): seq<Byte>
    requires AllFit(layout, rs)
  {
    if rs == [] then [] else LogBytes(layout, rs[..|rs| - 1]) + BytesOfFit(layout, rs[|rs| - 1])
  }

  function BytesOfFit(layout: Layout, r: Record): seq<Byte>
    requires Fits(layout, r)
  {
    ValuesRoundTrip(r.values, FieldsOf(layout, r.kind), []);
    RecordBytes(r)
  }

  lemma {:induction false} LogCons(layout: Layout, r: Record, rs: seq<Record>)
    requires Fits(layout, r) && AllFit(layout, rs)
    ensures AllFit(layout, [r] + rs) && LogBytes(layout, [r] + rs) == BytesOfFit(layout, r) + LogBytes(layout, rs)
    decreases rs
  {
    if rs == [] {
      assert [r] + rs == [] + [r];
      Snoc(layout, [], r);
      ConcatEmpty(BytesOfFit(layout, r));
    } else {
      var n := |rs| - 1;
      ConsSnoc(r, rs);
      LogCons(layout, r, rs[..n]);
      Snoc(layout, rs[..n], rs[n]);
      Snoc(layout, [r] + rs[..n], rs[n]);
      Assoc(BytesOfFit(layout, r), LogBytes(layout, rs[..n]), BytesOfFit(layout, rs[n]));
    }
  }

  lemma ConsSnoc<T>(x: T, s: seq<T>)
    requires s != []
    ensures var n := |s| - 1; s == s[..n] + [s[n]] && [x] + s == [x] + s[..n] + [s[n]]
  {
  }

  function ParseAll(layout: Layout, b: seq<Byte>): Option<seq<Record>>
    decreases |b|
  {
    if b == [] then Some([])
    else
      match ParseRecord(layout, b)
      case None => None
      case Some((r, rest)) =>
        match ParseAll(layout, rest)
        case None => None
        case Some(rs) => Some([r] + rs)
  }

  function Prepended(rs: seq<Record>, more: Option<seq<Record>>): Option<seq<Record>> {
    match more
    case None => None
    case Some(tail) => Some(rs + tail)
  }

  lemma Assoc5<T>(a: seq<T>, b: seq<T>, c: seq<T>, d: seq<T>, e: seq<T>)
    ensures a + b + c + d + e == a + (b + (c + (d + e)))
  {
  }

  /** LogMgr::parse: None where the code panics. */
  method Parse(layout: Layout, log: seq<Byte>) returns (out: Option<seq<Record>>)
    ensures out == ParseAll(layout, log)
  {
    var off, found := log, [];
    PrependedNone(ParseAll(layout, log));
    while off != []
      invariant ParseAll(layout, log) == Prepended(found, ParseAll(layout, off))
      decreases |off|
    {
      var r := ParseRecord(layout, off);
      if r.None? {
        return None;
      }
      PrependedStep(found, r.value.0, ParseAll(layout, r.value.1));
      off, found := r.value.1, found + [r.value.0];
    }
    assert found + [] == found;
    return Some(found);
  }

  lemma PrependedNone(more: Option<seq<Record>>)
    ensures Prepended([], more) == more
  {
    if more.Some? {
      assert [] + more.value == more.value;
    }
  }

  lemma PrependedStep(rs: seq<Record>, r: Record, more: Option<seq<Record>>)
    ensures Prepended(rs, Prepended([r], more)) == Prepended(rs + [r], more)
  {
    if more.Some? {
      Assoc(rs, [r], more.value);
    }
  }

  /** What was written is what is read. */
  lemma {:induction false} LogRoundTrip(layout: Layout, rs: seq<Record>)
    requires AllFit(layout, rs)
    ensures ParseAll(layout, LogBytes(layout, rs)) == Some(rs)
    decreases rs
  {
    if rs != [] {
      var b, tail := LogBytes(layout, rs), LogBytes(layout, rs[1..]);
      assert [rs[0]] + rs[1..] == rs;
      LogCons(layout, rs[0], rs[1..]);
      RecordRoundTrip(layout, rs[0], tail);
      LogRoundTrip(layout, rs[1..]);
      assert ParseRecord(layout, b) == Some((rs[0], tail));
      assert b != [];
    }
  }

  /* ---- sequence numbers and pairing ---- */

  datatype Role = App | Block | Enter | Exit

  type Roles = Word -> Role

  function RoleOf(roles: Roles, r: Record): Role {
    roles(r.kind)
  }

  /** Records other than those of applications carry strictly increasing numbers. */
  ghost predicate Increasing(roles: Roles, rs: seq<Record>, next: nat) {
    && (forall i :: 0 <= i < |rs| && !RoleOf(roles, rs[i]).App? ==> rs[i].lsn < next)
    && forall i, j :: 0 <= i < j < |rs| && !RoleOf(roles, rs[i]).App? && !RoleOf(roles, rs[j]).App? ==>
         rs[i].lsn < rs[j].lsn
  }

  lemma IncreasingSnoc(roles: Roles, rs: seq<Record>, next: nat, r: Record)
    requires Increasing(roles, rs, next) && (RoleOf(roles, r).App? || r.lsn == next)
    ensures Increasing(roles, rs + [r], next + 1)
  {
  }

  /** The enter record that the parser finds for a number: the last one seen with it. */
  function LastEnter(roles: Roles, rs: seq<Record>, lsn: Word): Option<nat> {
    if rs == [] then None
    else if RoleOf(roles, rs[|rs| - 1]).Enter? && rs[|rs| - 1].lsn == lsn then Some(|rs| - 1)
    else LastEnter(roles, rs[..|rs| - 1], lsn)
  }

  /** The number in an exit record, written after the result. */
  function EnterLsn(r: Record): Option<Word> {
    if |r.values| > 0 && r.values[|r.values| - 1].IntV? then Some(r.values[|r.values| - 1].n) else None
  }

  /** The entry that an exit gets after some records. */
  function PairIn(roles: Roles, rs: seq<Record>, r: Record): Option<nat> {
    if RoleOf(roles, r).Exit? && EnterLsn(r).Some? then LastEnter(roles, rs, EnterLsn(r).value) else None
  }

  function PairOf(roles: Roles, rs: seq<Record>, i: nat): Option<nat>
    requires i < |rs|
  {
    PairIn(roles, rs[..i], rs[i])
  }

  /** The syscall parser: its table of enter records is never cleared, so that an exit finds
      entries that were parsed before. An entry is named by its place among all records
      parsed; an exit without one fails an assertion. */
  class SyscallParser {
    const roles: Roles
    var syscalls: map<Word, nat>
    var count: nat
    ghost var parsed: seq<Record>

    ghost predicate Valid()
      reads this
    {
      && count == |parsed|
      && forall n: Word :: LastEnter(roles, parsed, n) == if n in syscalls then Some(syscalls[n]) else None
    }

    constructor (roles: Roles)
      ensures Valid() && parsed == [] && this.roles == roles
    {
      this.roles := roles;
      syscalls, count, parsed := map[], 0, [];
    }

    /** One record: the entry of an exit, and a place in the table for an enter. */
    method PairOne(r: Record) returns (pair: Option<nat>)
      requires Valid()
      modifies this
      ensures Valid() && parsed == old(parsed) + [r] && pair == PairIn(roles, old(parsed), r)
    {
      var lsn := EnterLsn(r);
      pair := None;
      if RoleOf(roles, r).Exit? && lsn.Some? && lsn.value in syscalls {
        pair := Some(syscalls[lsn.value]);
      }
      if RoleOf(roles, r).Enter? {
        syscalls := syscalls[r.lsn := count];
      }
      assert (parsed + [r])[..|parsed|] == parsed;
      count, parsed := count + 1, parsed + [r];
    }

    /** The records of one log, after those of the logs before it. */
    method PairAll(rs: seq<Record>) returns (pairs: seq<Option<nat>>)
      requires Valid()
      modifies this
      ensures Valid() && parsed == old(parsed) + rs && |pairs| == |rs|
      ensures forall i :: 0 <= i < |rs| ==> pairs[i] == PairOf(roles, old(parsed) + rs, |old(parsed)| + i)
    {
      pairs := [];
      ghost var was := parsed;
      ConcatEmpty(was);
      for k := 0 to |rs|
        invariant Valid() && parsed == was + rs[..k] && |pairs| == k
        invariant forall i :: 0 <= i < k ==> pairs[i] == PairOf(roles, was + rs, |was| + i)
      {
        assert (was + rs)[..|was| + k] == was + rs[..k] && (was + rs)[|was| + k] == rs[k];
        assert was + rs[..k + 1] == was + rs[..k] + [rs[k]];
        var pair := PairOne(rs[k]);
        pairs := pairs + [pair];
      }
      assert rs[..|rs|] == rs;
    }
  }

  lemma {:induction false} LastEnterIs(roles: Roles, rs: seq<Record>, next: nat, j: nat)
    requires Increasing(roles, rs, next) && j < |rs| && RoleOf(roles, rs[j]).Enter?
    ensures LastEnter(roles, rs, rs[j].lsn) == Some(j)
    decreases rs
  {
    var n := |rs| - 1;
    if j < n {
      assert rs[..n][j] == rs[j];
      LastEnterIs(roles, rs[..n], next, j);
    }
  }

  lemma {:induction false} LastEnterHas(roles: Roles, rs: seq<Record>, lsn: Word)
    requires LastEnter(roles, rs, lsn).Some?
    ensures var j := LastEnter(roles, rs, lsn).value;
      j < |rs| && RoleOf(roles, rs[j]).Enter? && rs[j].lsn == lsn
  {
    var n := |rs| - 1;
    if !(RoleOf(roles, rs[n]).Enter? && rs[n].lsn == lsn) {
      LastEnterHas(roles, rs[..n], lsn);
    }
  }

  /** Record `j` is the entry of the call whose exit record `i` is. */
  predicate IsOwn(roles: Roles, rs: seq<Record>, i: nat, j: nat)
    requires i < |rs|
  {
    && j < i && RoleOf(roles, rs[j]).Enter? && RoleOf(roles, rs[i]).Exit?
    && EnterLsn(rs[i]) == Some(rs[j].lsn)
  }

  /** An exit is paired with the entry whose number it carries, and with no other, whatever
      other calls and records come between. */
  lemma OwnEnter(roles: Roles, rs: seq<Record>, next: nat, i: nat, j: nat)
    requires Increasing(roles, rs, next) && i < |rs|
    ensures PairOf(roles, rs, i) == Some(j) <==> IsOwn(roles, rs, i, j)
  {
    if IsOwn(roles, rs, i, j) {
      assert rs[..i][j] == rs[j];
      assert Increasing(roles, rs[..i], next);
      LastEnterIs(roles, rs[..i], next, j);
    }
    if PairOf(roles, rs, i).Some? {
      LastEnterHas(roles, rs[..i], EnterLsn(rs[i]).value);
    }
  }

  lemma {:induction false} LastEnterConcat(roles: Roles, a: seq<Record>, b: seq<Record>, lsn: Word)
    ensures LastEnter(roles, a + b, lsn) ==
      match LastEnter(roles, b, lsn) case None => LastEnter(roles, a, lsn) case Some(j) => Some(|a| + j)
    decreases b
  {
    if b == [] {
      ConcatEmpty(a);
    } else {
      var n := |b| - 1;
      assert (a + b)[|a| + n] == b[n] && (a + b)[..|a| + n] == a + b[..n];
      LastEnterConcat(roles, a, b[..n], lsn);
    }
  }

  /** After records of earlier times, whose numbers may be the same: an exit is paired with
      its own entry when that was logged since, and else with the last earlier one that has
      its number. */
  lemma OwnEnterAfter(roles: Roles, older: seq<Record>, rs: seq<Record>, next: nat, i: nat)
    requires Increasing(roles, rs, next) && i < |rs|
    ensures forall j: nat :: PairOf(roles, older + rs, |older| + i) == Some(|older| + j) <==> IsOwn(roles, rs, i, j)
    ensures (forall j: nat :: !IsOwn(roles, rs, i, j)) ==>
      PairOf(roles, older + rs, |older| + i) == PairIn(roles, older, rs[i])
  {
    assert (older + rs)[|older| + i] == rs[i] && (older + rs)[..|older| + i] == older + rs[..i];
    forall j: nat ensures PairOf(roles, rs, i) == Some(j) <==> IsOwn(roles, rs, i, j) {
      OwnEnter(roles, rs, next, i, j);
    }
    if RoleOf(roles, rs[i]).Exit? && EnterLsn(rs[i]).Some? {
      var lsn := EnterLsn(rs[i]).value;
      LastEnterConcat(roles, older, rs[..i], lsn);
      if LastEnter(roles, older, lsn).Some? {
        LastEnterHas(roles, older, lsn);
      }
    }
  }

  /* ---- writing records ---- */

  lemma ValuesHead(base: seq<Byte>, values: seq<Value>, i: nat)
    requires Writable(values) && i < |values|
    ensures base + ValuesBytes(values[i..]) == base + ValueBytes(values[i]) + ValuesBytes(values[i + 1..])
  {
    assert values[i..][0] == values[i] && values[i..][1..] == values[i + 1..];
    Assoc(base, ValueBytes(values[i]), ValuesBytes(values[i + 1..]));
  }

  /** What comes before the records still held. */
  ghost function Taken<T(!new)>(since: seq<T>, held: seq<T>): seq<T> {
    if |held| <= |since| then since[..|since| - |held|] else []
  }

  lemma TakenAll<T(!new)>(since: seq<T>)
    ensures Taken(since, []) == since
  {
  }

  ghost predicate IsSuffix<T(!new)>(a: seq<T>, b: seq<T>) {
    |a| <= |b| && b[|b| - |a|..] == a
  }

  lemma SuffixSnoc<T(!new)>(a: seq<T>, b: seq<T>, x: T)
    requires IsSuffix(a, b)
    ensures IsSuffix(a + [x], b + [x])
  {
    assert (b + [x])[|b| - |a|..] == b[|b| - |a|..] + [x];
  }

  lemma Rejoin<T>(older: seq<T>, s: seq<T>, k: nat)
    requires k <= |s|
    ensures older + s[..k] + s[k..] == older + s
  {
    assert s == s[..k] + s[k..];
  }

  /** A number of 32 bits, counted up. */
  function Next(n: Word): Word {
    if n + 1 == 0x1_0000_0000 then 0 else n + 1
  }

  /** What the exit at a place of `rs` is paired with, after the older records. */
  ghost predicate Paired(roles: Roles, older: seq<Record>, rs: seq<Record>, wrapped: bool, i: int,
                         pair: Option<nat>)
  {
    && 0 <= i < |rs|
    && pair == PairOf(roles, older + rs, |older| + i)
    && (!wrapped ==>
          && (forall j: nat :: pair == Some(|older| + j) <==> IsOwn(roles, rs, i, j))
          && ((forall j: nat :: !IsOwn(roles, rs, i, j)) ==> pair == PairIn(roles, older, rs[i])))
  }

  lemma PairedIs(roles: Roles, older: seq<Record>, rs: seq<Record>, wrapped: bool, next: nat, i: nat,
                 pair: Option<nat>)
    requires i < |rs| && pair == PairOf(roles, older + rs, |older| + i)
    requires !wrapped ==> Increasing(roles, rs, next)
    ensures Paired(roles, older, rs, wrapped, i, pair)
  {
    if !wrapped {
      OwnEnterAfter(roles, older, rs, next, i);
    }
  }

  /** The last records are paired so. */
  ghost predicate AllPaired(roles: Roles, older: seq<Record>, rs: seq<Record>, wrapped: bool, pairs: seq<Option<nat>>) {
    |pairs| <= |rs| &&
    forall i :: 0 <= i < |pairs| ==> Paired(roles, older, rs, wrapped, |rs| - |pairs| + i, pairs[i])
  }

  lemma AllPairedIs(roles: Roles, older: seq<Record>, rs: seq<Record>, wrapped: bool, next: nat, k: nat, n: nat,
                    pairs: seq<Option<nat>>)
    requires k + |pairs| == |rs| && n == |older| + k && (!wrapped ==> Increasing(roles, rs, next))
    requires forall i :: 0 <= i < |pairs| ==> pairs[i] == PairOf(roles, older + rs, n + i)
    ensures AllPaired(roles, older, rs, wrapped, pairs)
  {
    forall i | 0 <= i < |pairs| ensures Paired(roles, older, rs, wrapped, k + i, pairs[i]) {
      assert pairs[i] == PairOf(roles, older + rs, n + i);
      PairedIs(roles, older, rs, wrapped, next, k + i, pairs[i]);
    }
  }

  /** Pairs the records from place `k` on, after the others are parsed. */
  method PairFrom(parser: SyscallParser, records: seq<Record>, ghost older: seq<Record>, ghost rs: seq<Record>,
                  ghost k: nat, ghost wrapped: bool, ghost next: nat)
      returns (pairs: seq<Option<nat>>)
    requires parser.Valid() && k <= |rs| && records == rs[k..] && parser.parsed == older + rs[..k]
    requires !wrapped ==> Increasing(parser.roles, rs, next)
    modifies parser
    ensures parser.Valid() && parser.parsed == older + rs
    ensures |pairs| == |records| && AllPaired(parser.roles, older, rs, wrapped, pairs)
  {
    Rejoin(older, rs, k);
    pairs := parser.PairAll(records);
    AllPairedIs(parser.roles, older, rs, wrapped, next, k, |older| + k, pairs);
  }

  class Logger {
    const layout: Layout
    const roles: Roles
    const log: EkmLog

    /** Records still in the log, all since it was last emptied, and whether the numbers have
        wrapped around since then. */
    ghost var held: seq<Record>
    ghost var since: seq<Record>
    ghost var wrapped: bool

    ghost predicate Valid()
      reads this, log
    {
      && log.Valid() && AllFit(layout, held) && Joined(log.pages) == LogBytes(layout, held)
      && (!wrapped ==> Increasing(roles, since, log.lsn)) && IsSuffix(held, since)
    }

    constructor (layout: Layout, roles: Roles, capacity: nat)
      requires capacity > 0
      ensures Valid() && fresh(log) && held == [] && since == [] && !wrapped
      ensures this.layout == layout && this.roles == roles
    {
      this.layout, this.roles := layout, roles;
      log := new EkmLog(capacity);
      held, since, wrapped := [], [], false;
    }

    method WriteHeader(r: Record)
      requires log.Valid()
      modifies log`pages, log`size
      ensures log.Valid() && Joined(log.pages) == old(Joined(log.pages)) + Header(r)
    {
      ghost var base := Joined(log.pages);
      log.AddBuf(IntBytes(r.kind));
      log.AddBuf(IntBytes(r.lsn));
      log.AddBuf(IntBytes(r.pid));
      log.AddBuf(IntBytes(MAGIC));
      Assoc5(base, IntBytes(r.kind), IntBytes(r.lsn), IntBytes(r.pid), IntBytes(MAGIC));
    }

    method WriteValues(values: seq<Value>)
      requires log.Valid() && Writable(values)
      modifies log`pages, log`size
      ensures log.Valid() && Joined(log.pages) == old(Joined(log.pages)) + ValuesBytes(values)
    {
      ghost var goal := Joined(log.pages) + ValuesBytes(values);
      assert values[0..] == values;
      for i := 0 to |values|
        invariant log.Valid() && Joined(log.pages) + ValuesBytes(values[i..]) == goal
      {
        ValuesHead(Joined(log.pages), values, i);
        log.AddBuf(ValueBytes(values[i]));
      }
      ConcatEmpty(Joined(log.pages));
    }

    /** The fields of one record, in order. */
    method WriteRecord(r: Record)
      requires log.Valid() && Fits(layout, r)
      modifies log`pages, log`size
      ensures log.Valid() && Joined(log.pages) == old(Joined(log.pages)) + BytesOfFit(layout, r)
    {
      ValuesRoundTrip(r.values, FieldsOf(layout, r.kind), []);
      Assoc(Joined(log.pages), Header(r), ValuesBytes(r.values));
      WriteHeader(r);
      WriteValues(r.values);
    }

    method Append(r: Record)
      requires log.Valid() && AllFit(layout, held) && Joined(log.pages) == LogBytes(layout, held) && Fits(layout, r)
      requires IsSuffix(held, since)
      modifies this`held, this`since, log`pages, log`size
      ensures log.Valid() && AllFit(layout, held) && Joined(log.pages) == LogBytes(layout, held)
      ensures held == old(held) + [r] && since == old(since) + [r] && IsSuffix(held, since)
    {
      Snoc(layout, held, r);
      SuffixSnoc(held, since, r);
      WriteRecord(r);
      held, since := held + [r], since + [r];
    }

    method AppendAndCount(r: Record)
      requires Valid() && Fits(layout, r) && (!wrapped ==> Increasing(roles, since + [r], log.lsn + 1))
      modifies this, log
      ensures Valid() && log.lsn == Next(old(log.lsn)) && (wrapped <==> old(wrapped) || log.lsn == 0)
      ensures held == old(held) + [r] && since == old(since) + [r]
    {
      log.lsn := Next(log.lsn);
      wrapped := wrapped || log.lsn == 0;
      Append(r);
    }

    /** An application record: the number is taken after counting up. */
    method LogApp(kind: Word, pid: Word, data: seq<Byte>)
      requires Valid() && roles(kind).App?
      requires FieldsOf(layout, kind) == [BufK] && |data| < 0x1_0000_0000
      modifies this, log
      ensures Valid() && log.lsn == Next(old(log.lsn)) && (wrapped <==> old(wrapped) || log.lsn == 0)
      ensures held == old(held) + [Record(kind, log.lsn, pid, [BufV(data)])]
      ensures since == old(since) + [Record(kind, log.lsn, pid, [BufV(data)])]
    {
      var r := Record(kind, Next(log.lsn), pid, [BufV(data)]);
      if !wrapped {
        IncreasingSnoc(roles, since, log.lsn, r);
      }
      AppendAndCount(r);
    }

    /** Any other record: the number is taken before counting up, and kept by the caller. */
    method LogOther(kind: Word, pid: Word, values: seq<Value>) returns (entry: Word)
      requires Valid() && !roles(kind).App?
      requires Conforms(values, FieldsOf(layout, kind))
      modifies this, log
      ensures Valid() && log.lsn == Next(entry) && entry == old(log.lsn)
      ensures wrapped <==> old(wrapped) || log.lsn == 0
      ensures held == old(held) + [Record(kind, entry, pid, values)]
      ensures since == old(since) + [Record(kind, entry, pid, values)]
    {
      entry := log.lsn;
      var r := Record(kind, entry, pid, values);
      if !wrapped {
        IncreasingSnoc(roles, since, entry, r);
      }
      AppendAndCount(r);
    }

    /** Takes the log out and parses it: the records held come back. */
    method Drain(room: nat) returns (ok: bool, records: Option<seq<Record>>)
      requires Valid()
      modifies this`held, log`pages, log`size
      ensures Valid() && (ok <==> |LogBytes(layout, old(held))| <= room)
      ensures ok ==> records == Some(old(held)) && held == []
      ensures !ok ==> held == old(held)
    {
      var buffer;
      ok, buffer := log.CopyLogBuffer(room);
      records := None;
      if ok {
        LogRoundTrip(layout, held);
        records := Parse(layout, buffer);
        held := [];
      }
    }

    /** The parser has parsed all that was taken out since the log was emptied, after some
        older records. */
    ghost predicate ParsedBy(parser: SyscallParser, older: seq<Record>)
      reads this`held, this`since, parser
    {
      parser.Valid() && parser.roles == roles && parser.parsed == older + Taken(since, held)
    }

    /** Takes the log out, parses it and pairs the calls. Each exit gets its own entry, be it
        in this log or in one taken out before, as long as the log was not emptied in between
        and its numbers did not wrap around; else the last entry with its number. */
    method DrainCalls(room: nat, parser: SyscallParser, ghost older: seq<Record>)
        returns (ok: bool, records: Option<seq<Record>>, pairs: seq<Option<nat>>)
      requires Valid() && ParsedBy(parser, older)
      modifies this`held, log`pages, log`size, parser
      ensures Valid() && ParsedBy(parser, older) && (ok <==> |LogBytes(layout, old(held))| <= room)
      ensures !ok ==> held == old(held)
      ensures ok ==> records == Some(old(held)) && held == [] && |pairs| == |old(held)|
      ensures ok ==> AllPaired(roles, older, since, wrapped, pairs)
    {
      pairs := [];
      ok, records := Drain(room);
      if ok {
        pairs := PairTaken(parser, records.value, older);
      }
    }

    /** Pairs the records just taken out. */
    method PairTaken(parser: SyscallParser, records: seq<Record>, ghost older: seq<Record>)
        returns (pairs: seq<Option<nat>>)
      requires held == [] && IsSuffix(records, since) && (!wrapped ==> Increasing(roles, since, log.lsn))
      requires parser.Valid() && parser.roles == roles && parser.parsed == older + Taken(since, records)
      modifies parser
      ensures ParsedBy(parser, older) && |pairs| == |records| && AllPaired(roles, older, since, wrapped, pairs)
    {
      pairs := PairFrom(parser, records, older, since, |since| - |records|, wrapped, log.lsn);
      TakenAll(since);
    }

    method Reset()
      requires Valid()
      modifies this, log
      ensures Valid() && held == [] && since == [] && !wrapped && log.lsn == 0
    {
      log.EmptyLog();
      held, since, wrapped := [], [], false;
    }
  }

  lemma {:induction false} Snoc(layout: Layout, rs: seq<Record>, r: Record)
    requires AllFit(layout, rs) && Fits(layout, r)
    ensures AllFit(layout, rs + [r]) && LogBytes(layout, rs + [r]) == LogBytes(layout, rs) + BytesOfFit(layout, r)
  {
    assert (rs + [r])[..|rs|] == rs;
  }
}
