/** Which byte strings the slot registry's decoder accepts, said without a decoder:
    a header and entries in any order, no id twice, every field within its column
    and every column the layout lacks zero. */
module RegistryGrammar {
  import opened Sets
  import opened Balances
  import opened Registries
  import opened RegistryCodec

  /** `bytes` writes out `m` under layout `l` with its ids in the order `ids`. */
  ghost predicate Writes(bytes: Bytes, l: Layout, m: Slots, ids: seq<nat>)
  {
    && NoDup(ids) && (forall id :: id in ids <==> id in m) && |ids| < U32_LIMIT
    && AllEncodable(m) && Lifted(l, m) == m
    && bytes == Be(VersionOf(l), 4) + (Be(|ids|, 4) + EntriesOf(l, m, ids))
  }

  ghost predicate InGrammar(bytes: Bytes, m: Slots)
  {
    (bytes == [] && m == map[]) || exists l, ids :: Writes(bytes, l, m, ids)
  }

  // ----- Numbers back into bytes -----

  lemma {:induction false} BeOfFromBe(s: Bytes)
    ensures FromBe(s) < Pow256(|s|) && Be(FromBe(s), |s|) == s
  {
    if s != [] {
      var init, x := s[..|s| - 1], s[|s| - 1];
      BeOfFromBe(init);
      var n := FromBe(s);
      assert n / 256 == FromBe(init) && n % 256 == x;
      assert Be(n, |s|) == Be(n / 256, |s| - 1) + [n % 256];
      assert s == init + [x];
    }
  }

  lemma Reads4(s: Bytes, n: nat)
    requires |s| == 4 && FromBe(s) == n
    ensures s == Be(n, 4) && n < U32_LIMIT
  {
    BeOfFromBe(s);
    Pow256Values();
  }

  lemma Reads8(s: Bytes, n: nat)
    requires |s| == 8 && FromBe(s) == n
    ensures s == Be(n, 8) && n <= U64_MAX
  {
    BeOfFromBe(s);
    Pow256Values();
  }

  // ----- One parsed entry -----

  lemma CutAt(bytes: Bytes, c: nat, m: nat)
    requires c <= m <= |bytes|
    ensures bytes[c..] == bytes[c..m] + bytes[m..]
  {
  }

  lemma CutTwice(bytes: Bytes, c: nat, m: nat, k: nat)
    requires c <= m <= k <= |bytes|
    ensures bytes[c..] == bytes[c..m] + (bytes[m..k] + bytes[k..])
  {
    CutAt(bytes, c, m);
    CutAt(bytes, m, k);
  }

  /** End of the deposit column. */
  function DepositEnd(l: Layout): nat
  {
    if l == V1 then 12 else 20
  }

  function FrontSlices(bytes: Bytes, l: Layout, c: nat): Front
    requires c + StatusEnd(l) <= |bytes|
  {
    Front(bytes[c..c + 4], bytes[c + 4..c + 12], bytes[c + 12..c + DepositEnd(l)],
          bytes[c + DepositEnd(l)..c + StatusEnd(l) - 1], bytes[c + StatusEnd(l) - 1..c + StatusEnd(l)])
  }

  lemma FrontRebuilds(bytes: Bytes, l: Layout, c: nat)
    requires c + StatusEnd(l) <= |bytes|
    ensures bytes[c..] == FrontThen(FrontSlices(bytes, l, c), bytes[c + StatusEnd(l)..])
  {
    var d, e := c + DepositEnd(l), c + StatusEnd(l);
    CutTwice(bytes, c, c + 4, c + 12);
    CutTwice(bytes, c + 12, d, e - 1);
    CutAt(bytes, e - 1, e);
  }

  /** Columns that read as the numbers of a record are the columns it writes. */
  lemma ColumnsWriteBack(f: Front, l: Layout, id: nat, rec: SlotRecord)
    requires |f.id| == 4 && |f.stake| == 8 && f.status == [StatusByte(rec.status)]
    requires FromBe(f.id) == id && FromBe(f.stake) == rec.stake
    requires if l == V1 then f.deposit == [] && rec.deposited == 0
             else |f.deposit| == 8 && FromBe(f.deposit) == rec.deposited
    requires if l == V3 then |f.exit| == 8 && FromBe(f.exit) == rec.exitHeight else f.exit == [] && rec.exitHeight == 0
    ensures f == FrontOf(l, id, rec) && Lift(l, rec) == rec
    ensures id < U32_LIMIT && rec.stake <= U64_MAX && rec.deposited <= U64_MAX && rec.exitHeight <= U64_MAX
  {
    Reads4(f.id, id);
    Reads8(f.stake, rec.stake);
    if l != V1 { Reads8(f.deposit, rec.deposited); }
    if l == V3 { Reads8(f.exit, rec.exitHeight); }
  }

  lemma StatusWritesBack(b: Byte, status: SlotStatus)
    requires StatusFromByte(b) == Good(status)
    ensures StatusByte(status) == b
  {
  }

  /** The columns as slices are the columns of the record they were read as. */
  lemma FrontIs(bytes: Bytes, l: Layout, c: nat, rec: SlotRecord)
    requires c + StatusEnd(l) <= |bytes|
    requires var k := ReadColumns(bytes, l, c);
             && StatusFromByte(k.status) == Good(rec.status)
             && rec.stake == k.stake && rec.deposited == k.deposited && rec.exitHeight == k.exitHeight
    ensures var id := ReadColumns(bytes, l, c).id;
            && FrontSlices(bytes, l, c) == FrontOf(l, id, rec) && Lift(l, rec) == rec
            && id < U32_LIMIT && rec.stake <= U64_MAX && rec.deposited <= U64_MAX && rec.exitHeight <= U64_MAX
  {
    var k, f := ReadColumns(bytes, l, c), FrontSlices(bytes, l, c);
    StatusWritesBack(k.status, rec.status);
    LastByte(bytes, c + StatusEnd(l) - 1);
    ColumnsWriteBack(f, l, k.id, rec);
  }

  lemma LastByte(bytes: Bytes, c: nat)
    requires c < |bytes|
    ensures bytes[c..c + 1] == [bytes[c]]
  {
  }

  function BackSlices(bytes: Bytes, c: nat, mldsa: nat, bls: nat): Back
    requires c + 8 + mldsa + bls <= |bytes|
  {
    var c1 := c + 4;
    var c2 := c1 + mldsa;
    Back(bytes[c..c1], bytes[c1..c2], bytes[c2..c2 + 4], bytes[c2 + 4..c2 + 4 + bls])
  }

  lemma BackRebuilds(bytes: Bytes, c: nat, mldsa: nat, bls: nat)
    requires c + 8 + mldsa + bls <= |bytes|
    ensures bytes[c..] == BackThen(BackSlices(bytes, c, mldsa, bls), bytes[c + 8 + mldsa + bls..])
  {
    var c2 := c + 4 + mldsa;
    CutTwice(bytes, c, c + 4, c2);
    CutTwice(bytes, c2, c2 + 4, c2 + 4 + bls);
  }

  lemma BackIs(bytes: Bytes, c: nat, keys: (Bytes, Bytes, nat), rec: SlotRecord)
    requires c + 4 <= |bytes| && ParseKeys(bytes, c) == Good(keys) && rec.mldsaKey == keys.0 && rec.blsKey == keys.1
    ensures |keys.0| <= MAX_MLDSA_PK_BYTES && |keys.1| <= MAX_BLS_PK_BYTES
    ensures keys.2 == c + 8 + |keys.0| + |keys.1| <= |bytes|
    ensures BackSlices(bytes, c, |keys.0|, |keys.1|) == BackOf(rec)
  {
    var k := BackSlices(bytes, c, |keys.0|, |keys.1|);
    Reads4(k.mldsaLength, |keys.0|);
    Reads4(k.blsLength, |keys.1|);
  }

  /** What an accepted entry is: the bytes of its own record, then the rest. */
  lemma ParsedEntry(bytes: Bytes, l: Layout, c: nat, e: Entry)
    requires ParseEntry(bytes, l, c) == Good(e)
    ensures Encodable(e.id, e.rec) && Lift(l, e.rec) == e.rec && c <= e.next <= |bytes|
    ensures bytes[c..] == EntryThen(l, e.id, e.rec, bytes[e.next..])
  {
    EntryParts(bytes, l, c, e);
    PartsMatch(bytes, l, c, e.id, e.rec, e.next);
    EntryRebuilds(bytes, l, c, e.id, e.rec, e.next);
  }

  /** The slices of an accepted entry are the pieces its record writes. */
  ghost predicate PiecesMatch(bytes: Bytes, l: Layout, c: nat, id: nat, rec: SlotRecord)
  {
    && c + EntryBytes(l, rec) <= |bytes|
    && FrontSlices(bytes, l, c) == FrontOf(l, id, rec)
    && BackSlices(bytes, c + StatusEnd(l), |rec.mldsaKey|, |rec.blsKey|) == BackOf(rec)
  }

  lemma PartsMatch(bytes: Bytes, l: Layout, c: nat, id: nat, rec: SlotRecord, next: nat)
    requires c + FixedBytes(l) <= |bytes|
    requires var k := ReadColumns(bytes, l, c);
             && StatusFromByte(k.status) == Good(rec.status) && id == k.id
             && rec.stake == k.stake && rec.deposited == k.deposited && rec.exitHeight == k.exitHeight
    requires ParseKeys(bytes, c + StatusEnd(l)) == Good((rec.mldsaKey, rec.blsKey, next))
    ensures Encodable(id, rec) && Lift(l, rec) == rec && next == c + EntryBytes(l, rec)
    ensures PiecesMatch(bytes, l, c, id, rec)
  {
    FrontIs(bytes, l, c, rec);
    BackIs(bytes, c + StatusEnd(l), (rec.mldsaKey, rec.blsKey, next), rec);
  }

  /** What the parser has looked at when it accepts an entry. */
  lemma EntryParts(bytes: Bytes, l: Layout, c: nat, e: Entry)
    requires ParseEntry(bytes, l, c) == Good(e)
    ensures c + FixedBytes(l) <= |bytes|
    ensures var k := ReadColumns(bytes, l, c);
            && StatusFromByte(k.status) == Good(e.rec.status) && e.id == k.id
            && e.rec.stake == k.stake && e.rec.deposited == k.deposited && e.rec.exitHeight == k.exitHeight
    ensures ParseKeys(bytes, c + StatusEnd(l)) == Good((e.rec.mldsaKey, e.rec.blsKey, e.next))
  {
  }

  lemma FrontPart(bytes: Bytes, l: Layout, c: nat, id: nat, rec: SlotRecord, mid: nat)
    requires PiecesMatch(bytes, l, c, id, rec) && mid == c + StatusEnd(l)
    ensures bytes[c..] == FrontThen(FrontOf(l, id, rec), bytes[mid..])
  {
    FrontRebuilds(bytes, l, c);
  }

  lemma BackPart(bytes: Bytes, l: Layout, c: nat, id: nat, rec: SlotRecord, mid: nat, next: nat)
    requires PiecesMatch(bytes, l, c, id, rec) && mid == c + StatusEnd(l) && next == c + EntryBytes(l, rec)
    ensures mid <= next && bytes[mid..] == BackThen(BackOf(rec), bytes[next..])
  {
    BackRebuilds(bytes, mid, |rec.mldsaKey|, |rec.blsKey|);
    assert mid + 8 + |rec.mldsaKey| + |rec.blsKey| == next;
  }

  lemma EntryRebuilds(bytes: Bytes, l: Layout, c: nat, id: nat, rec: SlotRecord, next: nat)
    requires PiecesMatch(bytes, l, c, id, rec) && next == c + EntryBytes(l, rec)
    ensures bytes[c..] == EntryThen(l, id, rec, bytes[next..])
  {
    var mid: nat := c + StatusEnd(l);
    FrontPart(bytes, l, c, id, rec, mid);
    BackPart(bytes, l, c, id, rec, mid, next);
  }

  // ----- All parsed entries -----

  /** `m` is `acc` and the listed ids, none of which `acc` has. */
  ghost predicate Adds(m: Slots, acc: Slots, ids: seq<nat>)
  {
    && NoDup(ids) && (forall id | id in ids :: id !in acc)
    && (forall id :: id in m <==> id in acc || id in ids)
    && (forall id | id in acc :: id in m && m[id] == acc[id])
  }

  lemma AddsCons(m: Slots, acc: Slots, e: Entry, rest: seq<nat>)
    requires e.id !in acc && Adds(m, acc[e.id := e.rec], rest)
    ensures Adds(m, acc, [e.id] + rest) && m[e.id] == e.rec
  {
    var ids := [e.id] + rest;
    assert forall id :: id in ids <==> id == e.id || id in rest;
    assert m[e.id] == acc[e.id := e.rec][e.id];
  }

  /** Every listed record fits its columns and has nothing the layout lacks. */
  ghost predicate Fitting(l: Layout, m: Slots, ids: seq<nat>)
  {
    forall id | id in ids :: id in m && Encodable(id, m[id]) && Lift(l, m[id]) == m[id]
  }

  lemma LaidCons(bytes: Bytes, l: Layout, m: Slots, c: nat, e: Entry, rest: seq<nat>)
    requires ParseEntry(bytes, l, c) == Good(e) && e.id in m && m[e.id] == e.rec
    requires Laid(bytes, l, m, e.next, rest) && Fitting(l, m, rest)
    ensures Laid(bytes, l, m, c, [e.id] + rest) && Fitting(l, m, [e.id] + rest)
  {
    var ids := [e.id] + rest;
    ParsedEntry(bytes, l, c, e);
    assert forall id :: id in ids <==> id == e.id || id in rest;
    assert ids[1..] == rest;
  }

  lemma {:induction false} ParsedAll(bytes: Bytes, l: Layout, n: nat, c: nat, acc: Slots, m: Slots)
    returns (ids: seq<nat>)
    requires c <= |bytes| && ParseAll(EntryParser(bytes, l), |bytes|, n, c, acc) == Good(m)
    ensures |ids| == n && Adds(m, acc, ids) && Laid(bytes, l, m, c, ids) && Fitting(l, m, ids)
    decreases n
  {
    if n == 0 {
      ids := [];
    } else {
      var less: nat := n - 1;
      ParsesAt(bytes, l, c);
      ParseOneMore(EntryParser(bytes, l), |bytes|, n, less, c, acc);
      var e := ParseEntry(bytes, l, c).value;
      var rest := ParsedAll(bytes, l, less, e.next, acc[e.id := e.rec], m);
      AddsCons(m, acc, e, rest);
      LaidCons(bytes, l, m, c, e, rest);
      ids := [e.id] + rest;
    }
  }

  // ----- The whole record -----

  lemma HeaderRebuilds(bytes: Bytes)
    requires |bytes| >= 8
    ensures FromBe(bytes[0..4]) < U32_LIMIT && FromBe(bytes[4..8]) < U32_LIMIT
    ensures bytes == Be(FromBe(bytes[0..4]), 4) + (Be(FromBe(bytes[4..8]), 4) + bytes[8..])
  {
    Reads4(bytes[0..4], FromBe(bytes[0..4]));
    Reads4(bytes[4..8], FromBe(bytes[4..8]));
    CutTwice(bytes, 0, 4, 8);
    assert bytes[0..] == bytes;
  }

  lemma AcceptedIsWritten(bytes: Bytes, m: Slots)
    requires Decoding(bytes) == Good(m)
    ensures InGrammar(bytes, m)
  {
    if bytes != [] {
      var l := LayoutOf(FromBe(bytes[0..4])).value;
      HeaderRebuilds(bytes);
      var ids := ParsedAll(bytes, l, FromBe(bytes[4..8]), 8, map[], m);
      FittingAll(l, m, ids);
      assert Writes(bytes, l, m, ids);
    }
  }

  lemma FittingAll(l: Layout, m: Slots, ids: seq<nat>)
    requires Fitting(l, m, ids) && forall id :: id in ids <==> id in m
    ensures AllEncodable(m) && Lifted(l, m) == m
  {
  }

  lemma WrittenIsAccepted(bytes: Bytes, l: Layout, m: Slots, ids: seq<nat>)
    requires Writes(bytes, l, m, ids)
    ensures Decoding(bytes) == Good(m)
  {
    HeaderRoundTrip(bytes, Be(VersionOf(l), 4), Be(|ids|, 4), EntriesOf(l, m, ids));
    HeaderMeans(VersionOf(l), |ids|);
    EntriesRoundTrip(bytes, l, m, 8, ids);
  }

  /** The decoder accepts exactly the written byte strings, and decodes each to what
      it was written from. */
  lemma DecodesIff(bytes: Bytes, m: Slots)
    ensures Decoding(bytes) == Good(m) <==> InGrammar(bytes, m)
  {
    if Decoding(bytes) == Good(m) {
      AcceptedIsWritten(bytes, m);
    }
    if l, ids :| Writes(bytes, l, m, ids) {
      WrittenIsAccepted(bytes, l, m, ids);
    }
  }
}
