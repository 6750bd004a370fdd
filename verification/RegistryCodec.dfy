/** The byte layout of the Authority registry (authority_registry.rs): the v3
    encoder, the decoder for layouts v1 to v3, and their round trip. */
module RegistryCodec {
  import opened Sets
  import opened Balances
  import opened Registries

  type Bytes = seq<Byte>

  datatype Layout = V1 | V2 | V3

  datatype Corruption =
    | HeaderMissing | VersionMismatch | EntryTruncated | StatusOutOfRange
    | MldsaLengthInvalid | BlsLengthMissing | BlsLengthInvalid | DuplicateId | TrailingBytes

  datatype Decoded<T> = Good(value: T) | Corrupt(reason: Corruption)

  const HEADER_BYTES: nat := 8
  const U32_LIMIT: nat := 0x1_0000_0000

  // ----- Big-endian integers -----

  function Pow256(w: nat): nat
  {
    if w == 0 then 1 else 256 * Pow256(w - 1)
  }

  /** The low `w` bytes of `n`, most significant first (a wider `n` is truncated). */
  function Be(n: nat, w: nat): (s: Bytes)
    ensures |s| == w
  {
    if w == 0 then [] else Be(n / 256, w - 1) + [n % 256]
  }

  function FromBe(s: Bytes): nat
  {
    if s == [] then 0 else 256 * FromBe(s[..|s| - 1]) + s[|s| - 1]
  }

  lemma {:induction false} BeRoundTrip(n: nat, w: nat)
    requires n < Pow256(w)
    ensures FromBe(Be(n, w)) == n
  {
    if w > 0 {
      BeRoundTrip(n / 256, w - 1);
      assert Be(n, w)[..w - 1] == Be(n / 256, w - 1);
    }
  }

  lemma MoveFactor(x: nat, p: nat)
    ensures 256 * (x * p) == x * (256 * p)
  {
  }

  /** The first byte is the most significant one. */
  lemma {:induction false} MostSignificantFirst(s: Bytes)
    requires s != []
    ensures FromBe(s) == s[0] * Pow256(|s| - 1) + FromBe(s[1..])
  {
    if |s| > 1 {
      var init, tail, x := s[..|s| - 1], s[1..], s[0];
      var p := Pow256(|init| - 1);
      MostSignificantFirst(init);
      assert init[1..] == tail[..|tail| - 1];
      TailValue(tail, init[1..]);
      MoveFactor(x, p);
      assert Pow256(|s| - 1) == 256 * p;
    }
  }

  lemma TailValue(tail: Bytes, front: Bytes)
    requires tail != [] && front == tail[..|tail| - 1]
    ensures FromBe(tail) == 256 * FromBe(front) + tail[|tail| - 1]
  {
  }

  lemma Pow256Values()
    ensures Pow256(4) == U32_LIMIT && Pow256(8) == U64_MAX + 1
  {
    assert Pow256(4) == U32_LIMIT;
    assert Pow256(8) == 256 * 256 * 256 * 256 * Pow256(4);
  }

  // ----- Entries -----

  function StatusByte(st: SlotStatus): Byte
  {
    match st case Active => 0 case Exiting => 1 case Ejected => 2
  }

  function StatusFromByte(b: Byte): Decoded<SlotStatus>
  {
    if b == 0 then Good(Active) else if b == 1 then Good(Exiting) else if b == 2 then Good(Ejected)
    else Corrupt(StatusOutOfRange)
  }

  function VersionOf(l: Layout): nat
  {
    match l case V1 => 1 case V2 => 2 case V3 => 3
  }

  function FixedBytes(l: Layout): nat
  {
    match l case V1 => 21 case V2 => 29 case V3 => 37
  }

  /** What a layout keeps of a record: v1 knows no deposit, v1 and v2 no exit height. */
  function Lift(l: Layout, rec: SlotRecord): SlotRecord
  {
    match l
    case V1 => rec.(deposited := 0, exitHeight := 0)
    case V2 => rec.(exitHeight := 0)
    case V3 => rec
  }

  function DepositField(l: Layout, rec: SlotRecord): Bytes
  {
    if l == V1 then [] else Be(rec.deposited, 8)
  }

  function ExitField(l: Layout, rec: SlotRecord): Bytes
  {
    if l == V3 then Be(rec.exitHeight, 8) else []
  }

  /** The fixed-width columns of an entry, as written. */
  datatype Front = Front(id: Bytes, stake: Bytes, deposit: Bytes, exit: Bytes, status: Bytes)

  /** The two length-prefixed keys, as written. */
  datatype Back = Back(mldsaLength: Bytes, mldsa: Bytes, blsLength: Bytes, bls: Bytes)

  function FrontOf(l: Layout, id: nat, rec: SlotRecord): Front
  {
    Front(Be(id, 4), Be(rec.stake, 8), DepositField(l, rec), ExitField(l, rec), [StatusByte(rec.status)])
  }

  function BackOf(rec: SlotRecord): Back
  {
    Back(Be(|rec.mldsaKey|, 4), rec.mldsaKey, Be(|rec.blsKey|, 4), rec.blsKey)
  }

  /** The columns in front of whatever follows. */
  function FrontThen(f: Front, rest: Bytes): Bytes
  {
    f.id + (f.stake + (f.deposit + (f.exit + (f.status + rest))))
  }

  function BackThen(k: Back, rest: Bytes): Bytes
  {
    k.mldsaLength + (k.mldsa + (k.blsLength + (k.bls + rest)))
  }

  /** One entry in front of whatever follows. */
  function EntryThen(l: Layout, id: nat, rec: SlotRecord, rest: Bytes): Bytes
  {
    FrontThen(FrontOf(l, id, rec), BackThen(BackOf(rec), rest))
  }

  /** One thing after another, over whatever writes one. */
  function InOrder(write: (nat, Bytes) -> Bytes, ids: seq<nat>): Bytes
  {
    if ids == [] then [] else write(ids[0], InOrder(write, ids[1..]))
  }

  function EntryWriter(l: Layout, m: Slots): (nat, Bytes) -> Bytes
  {
    (id: nat, rest: Bytes) => if id in m then EntryThen(l, id, m[id], rest) else rest
  }

  /** The entries of the listed ids, one after another. */
  function EntriesOf(l: Layout, m: Slots, ids: seq<nat>): Bytes
  {
    InOrder(EntryWriter(l, m), ids)
  }

  lemma EntriesUnfold(l: Layout, m: Slots, ids: seq<nat>)
    requires ids != [] && ids[0] in m
    ensures EntriesOf(l, m, ids) == EntryThen(l, ids[0], m[ids[0]], EntriesOf(l, m, ids[1..]))
  {
  }

  ghost predicate Ascending(ids: seq<nat>)
  {
    forall i, j | 0 <= i < j < |ids| :: ids[i] < ids[j]
  }

  lemma AscendingCons(x: nat, ids: seq<nat>)
    requires Ascending(ids) && forall id | id in ids :: x < id
    ensures Ascending([x] + ids) && forall id :: id in [x] + ids <==> id == x || id in ids
  {
    var all := [x] + ids;
    forall i, j | 0 <= i < j < |all| ensures all[i] < all[j] {
      assert all[j] == ids[j - 1] && ids[j - 1] in ids;
      assert i > 0 ==> all[i] == ids[i - 1];
    }
  }

  function SortedIds(s: set<nat>): (ids: seq<nat>)
    ensures forall id :: id in ids <==> id in s
    ensures |ids| == |s|
    ensures Ascending(ids)
    decreases |s|
  {
    if s == {} then []
    else
      var x := Min(s);
      var rest := SortedIds(s - {x});
      assert forall id | id in rest :: x < id;
      AscendingCons(x, rest);
      [x] + rest
  }

  /** The encoding under a layout: version, count, entries in ascending id order. */
  function Encoding(l: Layout, m: Slots): Bytes
  {
    Be(VersionOf(l), 4) + (Be(|m|, 4) + EntriesOf(l, m, SortedIds(m.Keys)))
  }

  lemma SmallNumber(n: nat)
    requires n < 256
    ensures Be(n, 4) == [0, 0, 0, n]
  {
    assert n / 256 == 0 && n % 256 == n;
    assert Be(0, 1) == [0];
    assert Be(0, 2) == Be(0, 1) + [0];
    assert Be(0, 3) == Be(0, 2) + [0];
    assert Be(n, 4) == Be(0, 3) + [n];
  }

  /** The columns on the wire: id, stake, deposit from version 2 on, exit height from
      version 3 on, status code, and the two keys, each behind its length. */
  lemma EntryFormat(l: Layout, id: nat, rec: SlotRecord, rest: Bytes)
    ensures var status: Byte := if rec.status == Active then 0 else if rec.status == Exiting then 1 else 2;
            var deposit := if l == V1 then [] else Be(rec.deposited, 8);
            var exit := if l == V3 then Be(rec.exitHeight, 8) else [];
            var keys := Be(|rec.mldsaKey|, 4) + (rec.mldsaKey + (Be(|rec.blsKey|, 4) + (rec.blsKey + rest)));
            EntryThen(l, id, rec, rest) == Be(id, 4) + (Be(rec.stake, 8) + (deposit + (exit + ([status] + keys))))
  {
  }

  /** What is written so far, followed by the entries of `rest`, is the encoding. */
  ghost predicate Pending(buf: Bytes, m: Slots, rest: set<nat>)
  {
    buf + EntriesOf(V3, m, SortedIds(rest)) == Encoding(V3, m)
  }

  lemma PendingAtStart(m: Slots)
    ensures Pending(Be(3, 4) + Be(|m|, 4), m, m.Keys)
  {
  }

  lemma PendingAtEnd(buf: Bytes, m: Slots)
    requires Pending(buf, m, {})
    ensures buf == Encoding(V3, m)
  {
    assert EntriesOf(V3, m, SortedIds({})) == [];
  }

  lemma LeastFirst(l: Layout, m: Slots, rest: set<nat>)
    requires rest != {} && rest <= m.Keys
    ensures var id := Min(rest);
            var later := EntriesOf(l, m, SortedIds(rest - {id}));
            EntriesOf(l, m, SortedIds(rest)) == EntryThen(l, id, m[id], later)
  {
    assert SortedIds(rest)[1..] == SortedIds(rest - {Min(rest)});
    EntriesUnfold(l, m, SortedIds(rest));
  }

  method Encode(m: Slots) returns (buf: Bytes)
    ensures buf == Encoding(V3, m)
  {
    buf := Be(3, 4);
    buf := buf + Be(|m|, 4);
    var rest := m.Keys;
    PendingAtStart(m);
    while rest != {}
      invariant rest <= m.Keys && Pending(buf, m, rest)
      decreases |rest|
    {
      var id := Min(rest);
      LeastFirst(V3, m, rest);
      buf := AppendEntry(buf, id, m[id], EntriesOf(V3, m, SortedIds(rest - {id})));
      rest := rest - {id};
    }
    PendingAtEnd(buf, m);
  }

  method AppendEntry(start: Bytes, id: nat, rec: SlotRecord, ghost later: Bytes) returns (buf: Bytes)
    ensures buf + later == start + EntryThen(V3, id, rec, later)
  {
    buf := start + Be(id, 4);
    buf := buf + Be(rec.stake, 8);
    buf := buf + Be(rec.deposited, 8);
    buf := buf + Be(rec.exitHeight, 8);
    buf := buf + [StatusByte(rec.status)];
    ghost var tail := BackThen(BackOf(rec), later);
    assert buf + tail == start + EntryThen(V3, id, rec, later);
    buf := buf + Be(|rec.mldsaKey|, 4);
    buf := buf + rec.mldsaKey;
    buf := buf + Be(|rec.blsKey|, 4);
    buf := buf + rec.blsKey;
  }

  // ----- Decoding -----

  datatype Entry = Entry(id: nat, rec: SlotRecord, next: nat)

  /** The keys and what follows them, from the first length prefix on. */
  function ParseKeys(bytes: Bytes, c: nat): (r: Decoded<(Bytes, Bytes, nat)>)
    requires c + 4 <= |bytes|
    ensures r.Good? ==> r.value.2 <= |bytes|
  {
    var mlen := FromBe(bytes[c..c + 4]);
    var c1 := c + 4;
    if mlen > MAX_MLDSA_PK_BYTES || c1 + mlen > |bytes| then Corrupt(MldsaLengthInvalid)
    else
      var c2 := c1 + mlen;
      if c2 + 4 > |bytes| then Corrupt(BlsLengthMissing)
      else
        var blen := FromBe(bytes[c2..c2 + 4]);
        var c3 := c2 + 4;
        if blen > MAX_BLS_PK_BYTES || c3 + blen > |bytes| then Corrupt(BlsLengthInvalid)
        else Good((bytes[c1..c2], bytes[c3..c3 + blen], c3 + blen))
  }

  datatype Columns = Columns(id: nat, stake: nat, deposited: nat, exitHeight: nat, status: Byte, next: nat)

  /** Width of the id, stake, deposit, exit and status columns together. */
  function StatusEnd(l: Layout): nat
  {
    match l case V1 => 13 case V2 => 21 case V3 => 29
  }

  /** The fixed columns of an entry; columns the layout lacks read as zero. */
  function ReadColumns(bytes: Bytes, l: Layout, c: nat): Columns
    requires c + StatusEnd(l) <= |bytes|
  {
    var id := FromBe(bytes[c..c + 4]);
    var stake := FromBe(bytes[c + 4..c + 12]);
    match l
    case V1 => Columns(id, stake, 0, 0, bytes[c + 12], c + 13)
    case V2 => Columns(id, stake, FromBe(bytes[c + 12..c + 20]), 0, bytes[c + 20], c + 21)
    case V3 => Columns(id, stake, FromBe(bytes[c + 12..c + 20]), FromBe(bytes[c + 20..c + 28]), bytes[c + 28], c + 29)
  }

  function ParseEntry(bytes: Bytes, l: Layout, cursor: nat): (r: Decoded<Entry>)
    ensures r.Good? ==> r.value.next <= |bytes|
  {
    if cursor + FixedBytes(l) > |bytes| then Corrupt(EntryTruncated)
    else
      var k := ReadColumns(bytes, l, cursor);
      match StatusFromByte(k.status)
      case Corrupt(why) => Corrupt(why)
      case Good(status) =>
        match ParseKeys(bytes, k.next)
        case Corrupt(why) => Corrupt(why)
        case Good((mldsa, bls, next)) =>
          Good(Entry(k.id, SlotRecord(mldsa, bls, k.stake, k.deposited, k.exitHeight, status), next))
  }

  /** Read `n` entries from `cursor`, rejecting repeated ids and a cursor that
      stops short of `end`. */
  function ParseAll(parse: nat -> Decoded<Entry>, end: nat, n: nat, cursor: nat, acc: Slots): Decoded<Slots>
    decreases n
  {
    if n == 0 then (if cursor != end then Corrupt(TrailingBytes) else Good(acc))
    else
      match parse(cursor)
      case Corrupt(why) => Corrupt(why)
      case Good(e) =>
        if e.id in acc then Corrupt(DuplicateId)
        else ParseAll(parse, end, n - 1, e.next, acc[e.id := e.rec])
  }

  function EntryParser(bytes: Bytes, l: Layout): nat -> Decoded<Entry>
  {
    (c: nat) => ParseEntry(bytes, l, c)
  }

  function LayoutOf(version: nat): Decoded<Layout>
  {
    if version == 3 then Good(V3) else if version == 2 then Good(V2) else if version == 1 then Good(V1)
    else Corrupt(VersionMismatch)
  }

  function Decoding(bytes: Bytes): Decoded<Slots>
  {
    if bytes == [] then Good(map[])
    else if |bytes| < HEADER_BYTES then Corrupt(HeaderMissing)
    else match LayoutOf(FromBe(bytes[0..4]))
      case Corrupt(why) => Corrupt(why)
      case Good(l) => ParseAll(EntryParser(bytes, l), |bytes|, FromBe(bytes[4..8]), HEADER_BYTES, map[])
  }

  /** The cursor loop.  It accepts any byte string whatsoever; that it never reads
      past the end is part of what is proved. */
  method Decode(bytes: Bytes) returns (r: Decoded<Slots>)
    ensures r == Decoding(bytes)
  {
    if |bytes| == 0 { return Good(map[]); }
    if |bytes| < HEADER_BYTES { return Corrupt(HeaderMissing); }
    var layout := LayoutOf(FromBe(bytes[0..4]));
    if layout.Corrupt? { return Corrupt(layout.reason); }
    r := DecodeEntries(bytes, layout.value, FromBe(bytes[4..8]));
  }

  /** One turn of the loop. */
  lemma ParseOneMore(parse: nat -> Decoded<Entry>, end: nat, left: nat, n: nat, c: nat, acc: Slots)
    requires left == n + 1
    ensures parse(c).Corrupt? ==> ParseAll(parse, end, left, c, acc) == Corrupt(parse(c).reason)
    ensures parse(c).Good? && parse(c).value.id in acc ==> ParseAll(parse, end, left, c, acc) == Corrupt(DuplicateId)
    ensures parse(c).Good? && parse(c).value.id !in acc ==>
              ParseAll(parse, end, left, c, acc)
              == ParseAll(parse, end, n, parse(c).value.next, acc[parse(c).value.id := parse(c).value.rec])
  {
  }

  lemma ParsesAt(bytes: Bytes, l: Layout, c: nat)
    ensures EntryParser(bytes, l)(c) == ParseEntry(bytes, l, c)
    ensures c + FixedBytes(l) > |bytes| ==> ParseEntry(bytes, l, c) == Corrupt(EntryTruncated)
    ensures ParseEntry(bytes, l, c).Good? ==> ParseEntry(bytes, l, c).value.next <= |bytes|
  {
  }

  method DecodeEntries(bytes: Bytes, l: Layout, count: nat) returns (r: Decoded<Slots>)
    requires |bytes| >= HEADER_BYTES
    ensures r == ParseAll(EntryParser(bytes, l), |bytes|, count, HEADER_BYTES, map[])
  {
    var m: Slots := map[];
    var cursor: nat := HEADER_BYTES;
    ghost var parse := EntryParser(bytes, l);
    ghost var left, result := count, ParseAll(parse, |bytes|, count, HEADER_BYTES, map[]);
    for k := 0 to count
      invariant cursor <= |bytes| && left == count - k
      invariant result == ParseAll(parse, |bytes|, left, cursor, m)
    {
      ParsesAt(bytes, l, cursor);
      ParseOneMore(parse, |bytes|, left, left - 1, cursor, m);
      left := left - 1;
      if cursor + FixedBytes(l) > |bytes| { return Corrupt(EntryTruncated); }
      var e := ParseEntry(bytes, l, cursor);
      if e.Corrupt? { return Corrupt(e.reason); }
      if e.value.id in m { return Corrupt(DuplicateId); }
      m := m[e.value.id := e.value.rec];
      cursor := e.value.next;
    }
    if cursor != |bytes| { return Corrupt(TrailingBytes); }
    r := Good(m);
  }

  // ----- Round trip -----

  /** A record whose fields fit their columns. */
  ghost predicate Encodable(id: nat, rec: SlotRecord)
  {
    && id < U32_LIMIT && rec.stake <= U64_MAX && rec.deposited <= U64_MAX && rec.exitHeight <= U64_MAX
    && |rec.mldsaKey| <= MAX_MLDSA_PK_BYTES && |rec.blsKey| <= MAX_BLS_PK_BYTES
  }

  ghost predicate AllEncodable(m: Slots)
  {
    forall id | id in m :: Encodable(id, m[id])
  }

  /** Reading the first part of what stands at the cursor, and moving past it. */
  lemma Peel(bytes: Bytes, c: nat, x: Bytes, y: Bytes)
    requires c <= |bytes| && bytes[c..] == x + y
    ensures c + |x| <= |bytes| && bytes[c..c + |x|] == x && bytes[c + |x|..] == y
  {
    assert |bytes[c..]| == |x| + |y|;
    assert bytes[c..c + |x|] == bytes[c..][..|x|];
    assert bytes[c + |x|..] == bytes[c..][|x|..];
  }

  /** The slices of `bytes` at `c` are the columns, and `rest` follows them. */
  ghost predicate FrontAt(bytes: Bytes, c: nat, f: Front, rest: Bytes)
  {
    var c1 := c + |f.id|;
    var c2 := c1 + |f.stake|;
    var c3 := c2 + |f.deposit|;
    var c4 := c3 + |f.exit|;
    var c5 := c4 + |f.status|;
    && c5 <= |bytes|
    && bytes[c..c1] == f.id && bytes[c1..c2] == f.stake && bytes[c2..c3] == f.deposit
    && bytes[c3..c4] == f.exit && bytes[c4..c5] == f.status && bytes[c5..] == rest
  }

  ghost predicate BackAt(bytes: Bytes, c: nat, k: Back, rest: Bytes)
  {
    var c1 := c + |k.mldsaLength|;
    var c2 := c1 + |k.mldsa|;
    var c3 := c2 + |k.blsLength|;
    var c4 := c3 + |k.bls|;
    && c4 <= |bytes|
    && bytes[c..c1] == k.mldsaLength && bytes[c1..c2] == k.mldsa
    && bytes[c2..c3] == k.blsLength && bytes[c3..c4] == k.bls && bytes[c4..] == rest
  }

  lemma PeelTwo(bytes: Bytes, c: nat, x: Bytes, y: Bytes, z: Bytes)
    requires c <= |bytes| && bytes[c..] == x + (y + z)
    ensures var next := c + |x|;
            && next + |y| <= |bytes| && bytes[c..next] == x && bytes[next..next + |y|] == y && bytes[next + |y|..] == z
  {
    Peel(bytes, c, x, y + z);
    Peel(bytes, c + |x|, y, z);
  }

  lemma PeelFront(bytes: Bytes, c: nat, f: Front, rest: Bytes)
    requires c <= |bytes| && bytes[c..] == FrontThen(f, rest)
    ensures FrontAt(bytes, c, f, rest)
  {
    var c2 := c + |f.id| + |f.stake|;
    var c4 := c2 + |f.deposit| + |f.exit|;
    PeelTwo(bytes, c, f.id, f.stake, f.deposit + (f.exit + (f.status + rest)));
    PeelTwo(bytes, c2, f.deposit, f.exit, f.status + rest);
    Peel(bytes, c4, f.status, rest);
  }

  lemma PeelBack(bytes: Bytes, c: nat, k: Back, rest: Bytes)
    requires c <= |bytes| && bytes[c..] == BackThen(k, rest)
    ensures BackAt(bytes, c, k, rest)
  {
    PeelTwo(bytes, c, k.mldsaLength, k.mldsa, k.blsLength + (k.bls + rest));
    PeelTwo(bytes, c + |k.mldsaLength| + |k.mldsa|, k.blsLength, k.bls, rest);
  }

  lemma KeysRoundTrip(bytes: Bytes, c: nat, k: Back, rest: Bytes)
    requires BackAt(bytes, c, k, rest) && |k.mldsaLength| == 4 && |k.blsLength| == 4
    requires FromBe(k.mldsaLength) == |k.mldsa| <= MAX_MLDSA_PK_BYTES
    requires FromBe(k.blsLength) == |k.bls| <= MAX_BLS_PK_BYTES
    ensures ParseKeys(bytes, c) == Good((k.mldsa, k.bls, c + 8 + |k.mldsa| + |k.bls|))
  {
  }

  function EntryBytes(l: Layout, rec: SlotRecord): nat
  {
    FixedBytes(l) + |rec.mldsaKey| + |rec.blsKey|
  }

  lemma ColumnsRoundTrip(bytes: Bytes, l: Layout, c: nat, f: Front, b: Byte, rest: Bytes)
    requires FrontAt(bytes, c, f, rest) && |f.id| == 4 && |f.stake| == 8 && f.status == [b]
    requires |f.deposit| == (if l == V1 then 0 else 8) && |f.exit| == (if l == V3 then 8 else 0)
    ensures c + StatusEnd(l) <= |bytes| && bytes[c + StatusEnd(l)..] == rest
    ensures ReadColumns(bytes, l, c)
         == Columns(FromBe(f.id), FromBe(f.stake), if l == V1 then 0 else FromBe(f.deposit),
                    if l == V3 then FromBe(f.exit) else 0, b, c + StatusEnd(l))
  {
    var at := c + StatusEnd(l) - 1;
    assert bytes[at] == bytes[at..at + 1][0];
  }

  /** Read as numbers, the columns are those of the record. */
  ghost predicate FrontReads(f: Front, l: Layout, id: nat, rec: SlotRecord)
  {
    && |f.id| == 4 && |f.stake| == 8 && f.status == [StatusByte(rec.status)]
    && |f.deposit| == (if l == V1 then 0 else 8) && |f.exit| == (if l == V3 then 8 else 0)
    && FromBe(f.id) == id && FromBe(f.stake) == rec.stake
    && (l != V1 ==> FromBe(f.deposit) == rec.deposited)
    && (l == V3 ==> FromBe(f.exit) == rec.exitHeight)
  }

  ghost predicate BackReads(k: Back, rec: SlotRecord)
  {
    && |k.mldsaLength| == 4 && |k.blsLength| == 4 && k.mldsa == rec.mldsaKey && k.bls == rec.blsKey
    && FromBe(k.mldsaLength) == |k.mldsa| <= MAX_MLDSA_PK_BYTES
    && FromBe(k.blsLength) == |k.bls| <= MAX_BLS_PK_BYTES
  }

  lemma FrontMeans(l: Layout, id: nat, rec: SlotRecord)
    requires Encodable(id, rec)
    ensures FrontReads(FrontOf(l, id, rec), l, id, rec)
  {
    Pow256Values();
    BeRoundTrip(id, 4);
    BeRoundTrip(rec.stake, 8);
    BeRoundTrip(rec.deposited, 8);
    BeRoundTrip(rec.exitHeight, 8);
  }

  lemma BackMeans(rec: SlotRecord)
    requires |rec.mldsaKey| <= MAX_MLDSA_PK_BYTES && |rec.blsKey| <= MAX_BLS_PK_BYTES
    ensures BackReads(BackOf(rec), rec)
  {
    Pow256Values();
    BeRoundTrip(|rec.mldsaKey|, 4);
    BeRoundTrip(|rec.blsKey|, 4);
  }

  lemma ColumnsRead(bytes: Bytes, l: Layout, c: nat, id: nat, rec: SlotRecord, f: Front, mid: Bytes)
    requires FrontReads(f, l, id, rec) && FrontAt(bytes, c, f, mid)
    ensures c + StatusEnd(l) <= |bytes|
    ensures ReadColumns(bytes, l, c)
         == Columns(id, rec.stake, Lift(l, rec).deposited, Lift(l, rec).exitHeight,
                    StatusByte(rec.status), c + StatusEnd(l))
  {
    ColumnsRoundTrip(bytes, l, c, f, StatusByte(rec.status), mid);
  }

  lemma KeysRead(bytes: Bytes, next: nat, rec: SlotRecord, k: Back, rest: Bytes)
    requires BackReads(k, rec) && BackAt(bytes, next, k, rest)
    ensures next + 8 + |rec.mldsaKey| + |rec.blsKey| <= |bytes|
    ensures ParseKeys(bytes, next) == Good((rec.mldsaKey, rec.blsKey, next + 8 + |rec.mldsaKey| + |rec.blsKey|))
    ensures bytes[next + 8 + |rec.mldsaKey| + |rec.blsKey|..] == rest
  {
    KeysRoundTrip(bytes, next, k, rest);
  }

  lemma PiecesFound(bytes: Bytes, l: Layout, c: nat, id: nat, rec: SlotRecord,
                    f: Front, k: Back, mid: Bytes, rest: Bytes)
    requires FrontReads(f, l, id, rec) && BackReads(k, rec)
    requires c <= |bytes| && bytes[c..] == FrontThen(f, mid) && mid == BackThen(k, rest)
    ensures FrontAt(bytes, c, f, mid) && BackAt(bytes, c + StatusEnd(l), k, rest)
  {
    PeelFront(bytes, c, f, mid);
    PeelBack(bytes, c + StatusEnd(l), k, rest);
  }

  /** Any bytes that read as these columns and keys parse as this entry. */
  lemma PiecesParse(bytes: Bytes, l: Layout, c: nat, id: nat, rec: SlotRecord,
                    f: Front, k: Back, mid: Bytes, rest: Bytes)
    requires FrontReads(f, l, id, rec) && BackReads(k, rec)
    requires FrontAt(bytes, c, f, mid) && BackAt(bytes, c + StatusEnd(l), k, rest)
    ensures ParseEntry(bytes, l, c) == Good(Entry(id, Lift(l, rec), c + EntryBytes(l, rec)))
    ensures c + EntryBytes(l, rec) <= |bytes| && bytes[c + EntryBytes(l, rec)..] == rest
  {
    var next := c + StatusEnd(l);
    ColumnsRead(bytes, l, c, id, rec, f, mid);
    KeysRead(bytes, next, rec, k, rest);
    EntryFromParts(bytes, l, c, id, rec);
  }

  lemma EntryFromParts(bytes: Bytes, l: Layout, c: nat, id: nat, rec: SlotRecord)
    requires c + EntryBytes(l, rec) <= |bytes|
    requires ReadColumns(bytes, l, c)
          == Columns(id, rec.stake, Lift(l, rec).deposited, Lift(l, rec).exitHeight,
                    StatusByte(rec.status), c + StatusEnd(l))
    requires ParseKeys(bytes, c + StatusEnd(l)) == Good((rec.mldsaKey, rec.blsKey, c + EntryBytes(l, rec)))
    ensures ParseEntry(bytes, l, c) == Good(Entry(id, Lift(l, rec), c + EntryBytes(l, rec)))
  {
  }

  /** One encoded entry reads back as its id and what the layout keeps of it. */
  lemma EntryRoundTrip(bytes: Bytes, l: Layout, c: nat, id: nat, rec: SlotRecord, rest: Bytes)
    requires c <= |bytes| && Encodable(id, rec)
    requires bytes[c..] == EntryThen(l, id, rec, rest)
    ensures ParseEntry(bytes, l, c) == Good(Entry(id, Lift(l, rec), c + EntryBytes(l, rec)))
    ensures c + EntryBytes(l, rec) <= |bytes| && bytes[c + EntryBytes(l, rec)..] == rest
  {
    FrontMeans(l, id, rec);
    BackMeans(rec);
    var f, k := FrontOf(l, id, rec), BackOf(rec);
    PiecesFound(bytes, l, c, id, rec, f, k, BackThen(k, rest), rest);
    PiecesParse(bytes, l, c, id, rec, f, k, BackThen(k, rest), rest);
  }

  ghost function Lifted(l: Layout, m: Slots): Slots
  {
    map id | id in m :: Lift(l, m[id])
  }

  lemma NoDupTail(ids: seq<nat>)
    requires ids != [] && NoDup(ids)
    ensures NoDup(ids[1..]) && ids[0] !in ids[1..] && forall id | id in ids[1..] :: id in ids
  {
  }

  /** At `c` stand the entries of `ids` and nothing after them. */
  ghost predicate Laid(bytes: Bytes, l: Layout, m: Slots, c: nat, ids: seq<nat>)
  {
    c <= |bytes| && (forall id | id in ids :: id in m) && bytes[c..] == EntriesOf(l, m, ids)
  }

  lemma LaidStep(bytes: Bytes, l: Layout, m: Slots, c: nat, ids: seq<nat>)
    requires AllEncodable(m) && ids != [] && Laid(bytes, l, m, c, ids)
    ensures var id := ids[0];
            var next := c + EntryBytes(l, m[id]);
            && id in m && ParseEntry(bytes, l, c) == Good(Entry(id, Lift(l, m[id]), next))
            && Laid(bytes, l, m, next, ids[1..])
  {
    EntriesUnfold(l, m, ids);
    EntryRoundTrip(bytes, l, c, ids[0], m[ids[0]], EntriesOf(l, m, ids[1..]));
  }


  /** `laid(c, ids)` promises that `parse` finds the entry of `ids[0]` at `c` and
      that the rest is laid out after it. */
  ghost predicate Steps(parse: nat -> Decoded<Entry>, laid: (nat, seq<nat>) -> bool, end: nat, lifted: Slots)
  {
    && (forall c: nat :: laid(c, []) ==> c == end)
    && forall c: nat, ids: seq<nat> | ids != [] && laid(c, ids) :: StepAt(parse, laid, lifted, c, ids)
  }

  ghost predicate StepAt(parse: nat -> Decoded<Entry>, laid: (nat, seq<nat>) -> bool, lifted: Slots,
                         c: nat, ids: seq<nat>)
    requires ids != []
  {
    && ids[0] in lifted && parse(c).Good? && parse(c).value.id == ids[0]
    && parse(c).value.rec == lifted[ids[0]] && laid(parse(c).value.next, ids[1..])
  }

  /** Adding the records of the listed ids to a map, one by one. */
  ghost function AddAll(lifted: Slots, ids: seq<nat>, acc: Slots): Slots
    decreases |ids|
  {
    if ids == [] then acc
    else if ids[0] in lifted then AddAll(lifted, ids[1..], acc[ids[0] := lifted[ids[0]]])
    else AddAll(lifted, ids[1..], acc)
  }

  lemma {:induction false} LoopReadsAll(parse: nat -> Decoded<Entry>, laid: (nat, seq<nat>) -> bool, end: nat,
                                        lifted: Slots, c: nat, ids: seq<nat>, acc: Slots)
    requires Steps(parse, laid, end, lifted) && laid(c, ids)
    requires NoDup(ids) && forall id | id in ids :: id !in acc
    ensures ParseAll(parse, end, |ids|, c, acc) == Good(AddAll(lifted, ids, acc))
    decreases |ids|
  {
    if ids != [] {
      NoDupTail(ids);
      var e := parse(c).value;
      LoopReadsAll(parse, laid, end, lifted, e.next, ids[1..], acc[e.id := e.rec]);
    }
  }

  lemma {:induction false} AddAllMeans(lifted: Slots, ids: seq<nat>, acc: Slots, id: nat)
    requires forall k | k in ids :: k in lifted
    ensures id in AddAll(lifted, ids, acc) <==> id in acc || id in ids
    ensures id in ids ==> AddAll(lifted, ids, acc)[id] == lifted[id]
    ensures id !in ids && id in acc ==> AddAll(lifted, ids, acc)[id] == acc[id]
    decreases |ids|
  {
    if ids != [] {
      assert ids == [ids[0]] + ids[1..];
      AddAllMeans(lifted, ids[1..], acc[ids[0] := lifted[ids[0]]], id);
    }
  }

  lemma AddsEverything(lifted: Slots, ids: seq<nat>)
    requires forall id :: id in ids <==> id in lifted
    ensures AddAll(lifted, ids, map[]) == lifted
  {
    forall id: nat ensures id in AddAll(lifted, ids, map[]) <==> id in lifted {
      AddAllMeans(lifted, ids, map[], id);
    }
    forall id | id in lifted ensures AddAll(lifted, ids, map[])[id] == lifted[id] {
      AddAllMeans(lifted, ids, map[], id);
    }
  }

  ghost function LaidFor(bytes: Bytes, l: Layout, m: Slots): (nat, seq<nat>) -> bool
  {
    (c: nat, ids: seq<nat>) => Laid(bytes, l, m, c, ids)
  }

  lemma LaidStepAt(bytes: Bytes, l: Layout, m: Slots, c: nat, ids: seq<nat>)
    requires AllEncodable(m) && ids != [] && LaidFor(bytes, l, m)(c, ids)
    ensures StepAt(EntryParser(bytes, l), LaidFor(bytes, l, m), Lifted(l, m), c, ids)
  {
    LaidStep(bytes, l, m, c, ids);
  }

  lemma EntriesStep(bytes: Bytes, l: Layout, m: Slots)
    requires AllEncodable(m)
    ensures Steps(EntryParser(bytes, l), LaidFor(bytes, l, m), |bytes|, Lifted(l, m))
  {
    forall c: nat, ids: seq<nat> | ids != [] && LaidFor(bytes, l, m)(c, ids)
      ensures StepAt(EntryParser(bytes, l), LaidFor(bytes, l, m), Lifted(l, m), c, ids)
    {
      LaidStepAt(bytes, l, m, c, ids);
    }
    EndsAtEnd(bytes, l, m);
  }

  lemma EndsAtEnd(bytes: Bytes, l: Layout, m: Slots)
    ensures forall c: nat :: LaidFor(bytes, l, m)(c, []) ==> c == |bytes|
  {
  }

  lemma EntriesRoundTrip(bytes: Bytes, l: Layout, m: Slots, c: nat, ids: seq<nat>)
    requires AllEncodable(m) && Laid(bytes, l, m, c, ids) && NoDup(ids) && forall id :: id in ids <==> id in m
    ensures ParseAll(EntryParser(bytes, l), |bytes|, |ids|, c, map[]) == Good(Lifted(l, m))
  {
    EntriesStep(bytes, l, m);
    LoopReadsAll(EntryParser(bytes, l), LaidFor(bytes, l, m), |bytes|, Lifted(l, m), c, ids, map[]);
    AddsEverything(Lifted(l, m), ids);
  }

  lemma HeaderRoundTrip(bytes: Bytes, v: Bytes, n: Bytes, rest: Bytes)
    requires bytes == v + (n + rest) && |v| == 4 && |n| == 4
    ensures |bytes| >= 8 && bytes[0..4] == v && bytes[4..8] == n && bytes[8..] == rest
  {
    assert bytes[0..] == bytes;
    PeelTwo(bytes, 0, v, n, rest);
  }

  /** The version on the wire, and the number of entries behind it. */
  lemma HeaderFormat(l: Layout, m: Slots)
    ensures |Encoding(l, m)| >= 8
    ensures Encoding(l, m)[0..4] == [0, 0, 0, if l == V1 then 1 else if l == V2 then 2 else 3]
    ensures Encoding(l, m)[4..8] == Be(|m|, 4)
  {
    SmallNumber(VersionOf(l));
    HeaderRoundTrip(Encoding(l, m), Be(VersionOf(l), 4), Be(|m|, 4), EntriesOf(l, m, SortedIds(m.Keys)));
  }

  lemma HeaderMeans(version: nat, count: nat)
    requires version < U32_LIMIT && count < U32_LIMIT
    ensures FromBe(Be(version, 4)) == version && FromBe(Be(count, 4)) == count
  {
    Pow256Values();
    BeRoundTrip(version, 4);
    BeRoundTrip(count, 4);
  }

  /** Each layout decodes to the same records, with the fields it lacks zero. */
  lemma DecodeEncode(l: Layout, m: Slots)
    requires AllEncodable(m) && |m| < U32_LIMIT
    ensures Decoding(Encoding(l, m)) == Good(Lifted(l, m))
  {
    var bytes := Encoding(l, m);
    var ids := SortedIds(m.Keys);
    HeaderRoundTrip(bytes, Be(VersionOf(l), 4), Be(|m|, 4), EntriesOf(l, m, ids));
    HeaderMeans(VersionOf(l), |m|);
    EntriesRoundTrip(bytes, l, m, 8, ids);
  }

  lemma NothingLost(m: Slots)
    ensures Lifted(V3, m) == m
  {
  }

  /** The current layout loses nothing. */
  lemma RoundTrip(m: Slots)
    requires AllEncodable(m) && |m| < U32_LIMIT
    ensures Decoding(Encoding(V3, m)) == Good(m)
  {
    DecodeEncode(V3, m);
    NothingLost(m);
  }

  /** Different registries never share an encoding. */
  lemma EncodeInjective(m: Slots, k: Slots)
    requires AllEncodable(m) && AllEncodable(k) && |m| < U32_LIMIT && |k| < U32_LIMIT
    requires Encoding(V3, m) == Encoding(V3, k)
    ensures m == k
  {
    RoundTrip(m);
    RoundTrip(k);
  }
}
