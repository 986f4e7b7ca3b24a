/** The converse of the round trip: the reader succeeds on nothing but encodings of well-formed
    transactions, except that it takes no notice of the high bit of a text byte. */
module WireConverse {
  import opened Tables
  import Positional
  import opened Wire

  /** A Clarity value is read from nothing but its own bytes. */
  ghost predicate Canonical<V(!new)>(c: Codec<V>) {
    forall bs {:trigger c.Deserialize(bs)} ::
      c.Deserialize(bs).Got? ==> bs == c.serialize(c.Deserialize(bs).value) + c.Deserialize(bs).rest
  }

  /** The bytes are the encoding, or where there is text differ from it in high bits only. */
  ghost predicate Agrees(text: bool, e: Bytes, b: Bytes) {
    |e| == |b| && forall i :: 0 <= i < |e| ==> e[i] == b[i] || (text && e[i] as int + 128 == b[i])
  }

  /** The byte string starts with the encoding in this sense, and goes on with `rest`. */
  ghost predicate Splits(text: bool, bs: Bytes, e: Bytes, rest: Bytes) {
    |bs| == |e| + |rest| && bs[|e|..] == rest && Agrees(text, e, bs[..|e|])
  }

  lemma Chain(text: bool, bs: Bytes, x: Bytes, mid: Bytes, y: Bytes, rest: Bytes)
    requires Splits(text, bs, x, mid) && Splits(text, mid, y, rest)
    ensures Splits(text, bs, x + y, rest)
  {
    forall i | 0 <= i < |x + y| ensures (x + y)[i] == bs[i] || (text && (x + y)[i] as int + 128 == bs[i]) {
      if i >= |x| { assert bs[i] == mid[i - |x|]; }
    }
    assert bs[|x + y|..] == mid[|y|..];
  }

  lemma Loosen(bs: Bytes, e: Bytes, rest: Bytes)
    requires Splits(false, bs, e, rest)
    ensures Splits(true, bs, e, rest)
  {
  }

  lemma Exact(bs: Bytes, e: Bytes, rest: Bytes)
    ensures Splits(false, bs, e, rest) <==> bs == e + rest
  {
    if Splits(false, bs, e, rest) { assert bs == bs[..|e|] + bs[|e|..]; }
  }

  // ---- Numbers, bytes and texts ----------------------------------------------------

  lemma {:induction false} UIntOfBytes(bs: Bytes)
    ensures UIntValue(bs) < Width(|bs|) && EncodeUInt(|bs|, UIntValue(bs)) == bs
  {
    if bs != [] {
      var n := |bs| - 1;
      UIntOfBytes(bs[..n]);
      Digit(UIntValue(bs[..n]), bs[n]);
      assert UIntValue(bs) == UIntValue(bs[..n]) * 256 + bs[n];
      assert bs == bs[..n] + [bs[n]];
    }
  }

  lemma Digit(hi: nat, d: Byte)
    ensures (hi * 256 + d) / 256 == hi && (hi * 256 + d) % 256 == d
  {
  }

  lemma UIntOnly(n: nat, bs: Bytes)
    requires ReadUInt(n, bs).Got?
    ensures var r := ReadUInt(n, bs); r.value < Width(n) && Splits(false, bs, EncodeUInt(n, r.value), r.rest)
  {
    UIntOfBytes(bs[..n]);
  }

  lemma BufferOnly(n: nat, bs: Bytes)
    requires ReadBuffer(n, bs).Got?
    ensures var r := ReadBuffer(n, bs); |r.value| == n && Splits(false, bs, r.value, r.rest)
  {
  }

  lemma ByteOnly(bs: Bytes)
    requires ReadByte(bs).Got?
    ensures var r := ReadByte(bs); Splits(false, bs, [r.value], r.rest)
  {
  }

  lemma EnumOnly(field: string, members: set<Byte>, bs: Bytes)
    requires ReadEnum(field, members, bs).Got?
    ensures var r := ReadEnum(field, members, bs); r.value in members && Splits(false, bs, [r.value], r.rest)
  {
    ByteOnly(bs);
  }

  lemma StringOnly(n: nat, bs: Bytes)
    requires ReadString(n, bs).Got?
    ensures var r := ReadString(n, bs); |r.value| < Width(n) && Splits(true, bs, EncodeString(n, r.value), r.rest)
  {
    hide EncodeUInt, Width, ReadUInt, ReadBuffer;
    var len := ReadUInt(n, bs);
    var b := ReadBuffer(len.value, len.rest);
    UIntOnly(n, bs);
    BufferOnly(len.value, len.rest);
    Loosen(bs, EncodeUInt(n, len.value), len.rest);
    TextAgrees(len.rest, b.value, b.rest);
    Chain(true, bs, EncodeUInt(n, len.value), len.rest, BytesOf(AsciiOf(b.value)), b.rest);
  }

  lemma TextAgrees(bs: Bytes, b: Bytes, rest: Bytes)
    requires Splits(false, bs, b, rest)
    ensures Splits(true, bs, BytesOf(AsciiOf(b)), rest)
  {
  }

  lemma NameOnly(bs: Bytes)
    requires ReadString(1, bs).Got?
    ensures var r := ReadString(1, bs); GoodName(r.value) && Splits(true, bs, EncodeString(1, r.value), r.rest)
  {
    StringOnly(1, bs);
    assert Width(1) == 256 * Width(0);
  }

  lemma AddressOnly(bs: Bytes)
    requires ReadAddress(bs).Got?
    ensures var r := ReadAddress(bs); GoodAddress(r.value) && Splits(false, bs, EncodeAddress(r.value), r.rest)
  {
    var v := ReadByte(bs);
    ByteOnly(bs);
    BufferOnly(20, v.rest);
    var h := ReadBuffer(20, v.rest);
    Chain(false, bs, [v.value], v.rest, h.value, h.rest);
  }

  // ---- Lists -----------------------------------------------------------------------

  /** The element reader succeeds on nothing but encodings of good elements. */
  ghost predicate ItemOnly<T(!new)>(text: bool, item: Bytes -> Read<T>, encode: T -> Bytes, good: T -> bool) {
    forall bs {:trigger item(bs)} :: item(bs).Got? ==> good(item(bs).value) && Splits(text, bs, encode(item(bs).value), item(bs).rest)
  }

  lemma {:induction false} ItemsOnly<T(!new)>(text: bool, n: nat, item: Bytes -> Read<T>, encode: T -> Bytes, good: T -> bool, bs: Bytes)
    requires ItemOnly(text, item, encode, good) && ReadItems(n, item, bs).Got?
    ensures var r := ReadItems(n, item, bs);
            |r.value| == n && (forall x :: x in r.value ==> good(x)) && Splits(text, bs, EncodeItems(r.value, encode), r.rest)
  {
    if n > 0 {
      var x := item(bs);
      var xs := ReadItems(n - 1, item, x.rest);
      ItemsOnly(text, n - 1, item, encode, good, x.rest);
      Chain(text, bs, encode(x.value), x.rest, EncodeItems(xs.value, encode), xs.rest);
      assert ([x.value] + xs.value)[1..] == xs.value;
    }
  }

  lemma ListOnly<T(!new)>(text: bool, item: Bytes -> Read<T>, encode: T -> Bytes, good: T -> bool, bs: Bytes)
    requires ItemOnly(text, item, encode, good) && ReadList(item, bs).Got?
    ensures var r := ReadList(item, bs);
            |r.value| < Width(4) && (forall x :: x in r.value ==> good(x)) && Splits(text, bs, EncodeList(r.value, encode), r.rest)
  {
    hide ReadUInt, EncodeUInt, Width, ReadItems, EncodeItems;
    var n := ReadUInt(4, bs);
    UIntOnly(4, bs);
    if text { Loosen(bs, EncodeUInt(4, n.value), n.rest); }
    ItemsOnly(text, n.value, item, encode, good, n.rest);
    var xs := ReadItems(n.value, item, n.rest);
    Chain(text, bs, EncodeUInt(4, n.value), n.rest, EncodeItems(xs.value, encode), xs.rest);
  }

  // ---- Authorisation ---------------------------------------------------------------

  lemma AuthFieldOnly(bs: Bytes)
    requires ReadAuthField(bs).Got?
    ensures var r := ReadAuthField(bs); GoodAuthField(r.value) && Splits(false, bs, EncodeAuthField(r.value), r.rest)
  {
    var t := ReadEnum("auth field type", {0, 1, 2, 3}, bs);
    EnumOnly("auth field type", {0, 1, 2, 3}, bs);
    hide ReadEnum, Splits;
    var n := if t.value <= 1 then 33 else 65;
    BufferOnly(n, t.rest);
    var b := ReadBuffer(n, t.rest);
    Chain(false, bs, [t.value], t.rest, b.value, b.rest);
  }

  lemma AuthFieldsOnly(bs: Bytes)
    requires ReadList(ReadAuthField, bs).Got?
    ensures var r := ReadList(ReadAuthField, bs);
            |r.value| < Width(4) && (forall f :: f in r.value ==> GoodAuthField(f)) &&
            Splits(false, bs, EncodeList(r.value, EncodeAuthField), r.rest)
  {
    hide ReadList, EncodeList, Width, Splits, ReadAuthField, EncodeAuthField, GoodAuthField;
    forall b | ReadAuthField(b).Got?
      ensures GoodAuthField(ReadAuthField(b).value) && Splits(false, b, EncodeAuthField(ReadAuthField(b).value), ReadAuthField(b).rest)
    {
      AuthFieldOnly(b);
    }
    ListOnly(false, ReadAuthField, EncodeAuthField, GoodAuthField, bs);
  }

  lemma SpendingConditionOnly(bs: Bytes)
    requires ReadSpendingCondition(bs).Got?
    ensures var r := ReadSpendingCondition(bs);
            GoodSpendingCondition(r.value) && Splits(false, bs, EncodeSpendingCondition(r.value), r.rest)
  {
    hide ReadEnum, ReadUInt, EncodeUInt, ReadBuffer, ReadByte, ReadList, EncodeList, Width, Splits, GoodAuthField;
    var m := ReadEnum("spend condition hash mode", {0, 1, 2, 3}, bs);
    EnumOnly("spend condition hash mode", {0, 1, 2, 3}, bs);
    BufferOnly(20, m.rest);
    var s := ReadBuffer(20, m.rest);
    UIntOnly(8, s.rest);
    var n := ReadUInt(8, s.rest);
    UIntOnly(8, n.rest);
    var f := ReadUInt(8, n.rest);
    var r := ReadSpendingCondition(bs);
    assert HashMode(r.value) == m.value;
    SigsOnly(m.value, f.rest, r.value, r.rest);
    var sigs := EncodeSigs(r.value);
    hide EncodeSigs, ReadSpendingCondition;
    Chain(false, n.rest, EncodeUInt(8, f.value), f.rest, sigs, r.rest);
    Chain(false, s.rest, EncodeUInt(8, n.value), n.rest, EncodeUInt(8, f.value) + sigs, r.rest);
    Chain(false, m.rest, s.value, s.rest, EncodeUInt(8, n.value) + (EncodeUInt(8, f.value) + sigs), r.rest);
    Chain(false, bs, [m.value], m.rest, s.value + (EncodeUInt(8, n.value) + (EncodeUInt(8, f.value) + sigs)), r.rest);
  }

  /** What the two kinds of condition end with. */
  lemma SigsOnly(mode: Byte, bs: Bytes, v: SpendingCondition, rest: Bytes)
    requires mode <= 3
    requires if mode % 2 == 0 then
               var k := ReadByte(bs);
               k.Got? && v.SingleSig? && v.keyEncoding == k.value && ReadBuffer(65, k.rest) == Got(v.signature, rest)
             else
               var l := ReadList(ReadAuthField, bs);
               l.Got? && v.MultiSig? && v.fields == l.value && ReadUInt(2, l.rest) == Got(v.signatureCount, rest)
    ensures Splits(false, bs, EncodeSigs(v), rest)
    ensures v.SingleSig? ==> |v.signature| == 65
    ensures v.MultiSig? ==> |v.fields| < Width(4) && v.signatureCount < Width(2) && forall f :: f in v.fields ==> GoodAuthField(f)
  {
    hide ReadUInt, EncodeUInt, ReadBuffer, ReadByte, ReadList, EncodeList, Width, Splits, GoodAuthField;
    if mode % 2 == 0 {
      var k := ReadByte(bs);
      ByteOnly(bs);
      BufferOnly(65, k.rest);
      Chain(false, bs, [k.value], k.rest, v.signature, rest);
    } else {
      var l := ReadList(ReadAuthField, bs);
      AuthFieldsOnly(bs);
      UIntOnly(2, l.rest);
      Chain(false, bs, EncodeList(v.fields, EncodeAuthField), l.rest, EncodeUInt(2, v.signatureCount), rest);
    }
  }

  lemma AuthOnly(bs: Bytes)
    requires ReadAuth(bs).Got?
    ensures var r := ReadAuth(bs); GoodAuth(r.value) && Splits(false, bs, EncodeAuth(r.value), r.rest)
  {
    hide ReadEnum, ReadSpendingCondition, EncodeSpendingCondition, GoodSpendingCondition, Splits;
    var t := ReadEnum("auth type", {4, 5}, bs);
    EnumOnly("auth type", {4, 5}, bs);
    SpendingConditionOnly(t.rest);
    var o := ReadSpendingCondition(t.rest);
    if t.value == 4 {
      Chain(false, bs, [4], t.rest, EncodeSpendingCondition(o.value), o.rest);
    } else {
      SpendingConditionOnly(o.rest);
      var s := ReadSpendingCondition(o.rest);
      Chain(false, t.rest, EncodeSpendingCondition(o.value), o.rest, EncodeSpendingCondition(s.value), s.rest);
      Chain(false, bs, [5], t.rest, EncodeSpendingCondition(o.value) + EncodeSpendingCondition(s.value), s.rest);
    }
  }

  // ---- Post-conditions -------------------------------------------------------------

  lemma PrincipalOnly(bs: Bytes)
    requires ReadPrincipal(bs).Got?
    ensures var r := ReadPrincipal(bs); GoodPrincipal(r.value) && Splits(true, bs, EncodePrincipal(r.value), r.rest)
  {
    hide ReadEnum, ReadAddress, EncodeAddress, ReadString, EncodeString, Splits, GoodAddress, GoodName;
    var t := ReadEnum("post condition principal type", {1, 2, 3}, bs);
    EnumOnly("post condition principal type", {1, 2, 3}, bs);
    Loosen(bs, [t.value], t.rest);
    if t.value != 1 {
      AddressOnly(t.rest);
      var a := ReadAddress(t.rest);
      Loosen(t.rest, EncodeAddress(a.value), a.rest);
      Chain(true, bs, [t.value], t.rest, EncodeAddress(a.value), a.rest);
      if t.value == 3 {
        NameOnly(a.rest);
        var n := ReadString(1, a.rest);
        Chain(true, bs, [t.value] + EncodeAddress(a.value), a.rest, EncodeString(1, n.value), n.rest);
      }
    }
  }

  lemma AssetInfoOnly(bs: Bytes)
    requires ReadAssetInfo(bs).Got?
    ensures var r := ReadAssetInfo(bs); GoodAssetInfo(r.value) && Splits(true, bs, EncodeAssetInfo(r.value), r.rest)
  {
    hide ReadAddress, EncodeAddress, ReadString, EncodeString, Splits, GoodAddress, GoodName;
    AddressOnly(bs);
    var a := ReadAddress(bs);
    Loosen(bs, EncodeAddress(a.value), a.rest);
    NameOnly(a.rest);
    var n := ReadString(1, a.rest);
    NameOnly(n.rest);
    var m := ReadString(1, n.rest);
    Chain(true, a.rest, EncodeString(1, n.value), n.rest, EncodeString(1, m.value), m.rest);
    Chain(true, bs, EncodeAddress(a.value), a.rest, EncodeString(1, n.value) + EncodeString(1, m.value), m.rest);
  }

  lemma CodeAndAmount(bs: Bytes)
    requires var k := ReadEnum("condition code", {1, 2, 3, 4, 5}, bs); k.Got? && ReadUInt(8, k.rest).Got?
    ensures var k := ReadEnum("condition code", {1, 2, 3, 4, 5}, bs);
            var n := ReadUInt(8, k.rest);
            1 <= k.value <= 5 && n.value < Width(8) && Splits(true, bs, [k.value] + EncodeUInt(8, n.value), n.rest)
  {
    hide ReadEnum, ReadUInt, EncodeUInt, Splits, Width;
    var k := ReadEnum("condition code", {1, 2, 3, 4, 5}, bs);
    EnumOnly("condition code", {1, 2, 3, 4, 5}, bs);
    UIntOnly(8, k.rest);
    var n := ReadUInt(8, k.rest);
    Chain(false, bs, [k.value], k.rest, EncodeUInt(8, n.value), n.rest);
    Loosen(bs, [k.value] + EncodeUInt(8, n.value), n.rest);
  }

  lemma ValueAndCode<V(!new)>(c: Codec<V>, bs: Bytes, v: V, mid: Bytes, k: Byte, rest: Bytes)
    requires Canonical(c) && c.Deserialize(bs) == Got(v, mid)
    requires ReadEnum("nonfungible condition code", {0x10, 0x11}, mid) == Got(k, rest)
    ensures 0x10 <= k <= 0x11 && Splits(true, bs, c.serialize(v) + [k], rest)
  {
    Exact(bs, c.serialize(v), mid);
    EnumOnly("nonfungible condition code", {0x10, 0x11}, mid);
    hide ReadEnum, Splits;
    Chain(false, bs, c.serialize(v), mid, [k], rest);
    Loosen(bs, c.serialize(v) + [k], rest);
  }

  lemma PostConditionOnly<V(!new)>(c: Codec<V>, bs: Bytes)
    requires Canonical(c) && ReadPostCondition(c, bs).Got?
    ensures var r := ReadPostCondition(c, bs); GoodPostCondition(r.value) && Splits(true, bs, EncodePostCondition(c, r.value), r.rest)
  {
    hide ReadEnum, ReadPrincipal, EncodePrincipal, GoodPrincipal, ReadAssetInfo, EncodeAssetInfo, GoodAssetInfo, ReadUInt, EncodeUInt,
         Width, Splits, Canonical, Codec.Deserialize;
    var t := ReadEnum("asset info type", {0, 1, 2}, bs);
    EnumOnly("asset info type", {0, 1, 2}, bs);
    Loosen(bs, [t.value], t.rest);
    PrincipalOnly(t.rest);
    var p := ReadPrincipal(t.rest);
    var r := ReadPostCondition(c, bs);
    var x := EncodePrincipal(p.value);
    if t.value == 0 {
      CodeAndAmount(p.rest);
      var y := [r.value.code] + EncodeUInt(8, r.value.amount);
      Chain(true, t.rest, x, p.rest, y, r.rest);
      Chain(true, bs, [0], t.rest, x + y, r.rest);
    } else {
      AssetInfoOnly(p.rest);
      var a := ReadAssetInfo(p.rest);
      var z := EncodeAssetInfo(a.value);
      var y: Bytes;
      if t.value == 1 {
        CodeAndAmount(a.rest);
        y := [r.value.code] + EncodeUInt(8, r.value.amount);
      } else {
        ValueAndCode(c, a.rest, r.value.assetValue, c.Deserialize(a.rest).rest, r.value.code, r.rest);
        y := c.serialize(r.value.assetValue) + [r.value.code];
      }
      Chain(true, p.rest, z, a.rest, y, r.rest);
      Chain(true, t.rest, x, p.rest, z + y, r.rest);
      Chain(true, bs, [t.value], t.rest, x + (z + y), r.rest);
    }
  }

  function GoodCondition<V>(): PostCondition<V> -> bool {
    (p: PostCondition<V>) => GoodPostCondition(p)
  }

  lemma PostConditionsOnly<V(!new)>(c: Codec<V>, bs: Bytes)
    requires Canonical(c) && ReadPostConditions(c, bs).Got?
    ensures var r := ReadPostConditions(c, bs);
            GoodPostConditions(r.value) && Splits(true, bs, EncodePostConditions(c, r.value), r.rest)
  {
    hide ReadPostCondition, EncodePostCondition, ReadList, EncodeList, Width, GoodPostCondition, Canonical, Splits;
    var item, encode := PostConditionReader(c), PostConditionEncoder(c);
    forall b | item(b).Got?
      ensures GoodCondition()(item(b).value) && Splits(true, b, encode(item(b).value), item(b).rest)
    {
      PostConditionOnly(c, b);
    }
    ListOnly(true, item, encode, GoodCondition(), bs);
    assert forall p: PostCondition<V> :: GoodCondition()(p) <==> GoodPostCondition(p);
  }

  // ---- Payloads --------------------------------------------------------------------

  lemma ClarityValuesOnly<V(!new)>(c: Codec<V>, bs: Bytes)
    requires Canonical(c) && ReadClarityValues(c, bs).Got?
    ensures var r := ReadClarityValues(c, bs); |r.value| < Width(4) && bs == EncodeClarityValues(c, r.value) + r.rest
  {
    hide ReadList, EncodeList, Width;
    var good: V -> bool := (v: V) => true;
    forall b | c.Deserialize(b).Got?
      ensures good(c.Deserialize(b).value) && Splits(false, b, c.serialize(c.Deserialize(b).value), c.Deserialize(b).rest)
    {
      Exact(b, c.serialize(c.Deserialize(b).value), c.Deserialize(b).rest);
    }
    ListOnly(false, c.Deserialize, c.serialize, good, bs);
    var r := ReadClarityValues(c, bs);
    Exact(bs, EncodeClarityValues(c, r.value), r.rest);
  }

  lemma RecipientOnly(bs: Bytes)
    requires ReadRecipient(bs).Got?
    ensures var r := ReadRecipient(bs);
            GoodPrincipal(r.value) && !r.value.Origin? && Splits(true, bs, EncodeRecipient(r.value), r.rest)
  {
    hide ReadByte, ReadAddress, EncodeAddress, ReadString, EncodeString, Splits, GoodAddress, GoodName;
    var t := ReadByte(bs);
    ByteOnly(bs);
    Loosen(bs, [t.value], t.rest);
    AddressOnly(t.rest);
    var a := ReadAddress(t.rest);
    Loosen(t.rest, EncodeAddress(a.value), a.rest);
    if t.value == 5 {
      Chain(true, bs, [5], t.rest, EncodeAddress(a.value), a.rest);
    } else {
      NameOnly(a.rest);
      var n := ReadString(1, a.rest);
      Chain(true, t.rest, EncodeAddress(a.value), a.rest, EncodeString(1, n.value), n.rest);
      Chain(true, bs, [6], t.rest, EncodeAddress(a.value) + EncodeString(1, n.value), n.rest);
    }
  }

  lemma ContractCallOnly<V(!new)>(c: Codec<V>, bs: Bytes)
    requires Canonical(c) && ReadContractCall(c, bs).Got?
    ensures var r := ReadContractCall(c, bs);
            var p := r.value.payload;
            && p.ContractCall? && GoodPayload(p) && r.value.rawFunctionArgs == RawArgs(c, p)
            && Splits(true, bs, EncodeAddress(p.address) + (EncodeString(1, p.contractName) +
                                (EncodeString(1, p.functionName) + EncodeClarityValues(c, p.args))), r.rest)
  {
    hide ReadAddress, EncodeAddress, ReadString, EncodeString, ReadClarityValues, EncodeClarityValues, Width, Canonical, Splits, GoodAddress, GoodName;
    AddressOnly(bs);
    var a := ReadAddress(bs);
    Loosen(bs, EncodeAddress(a.value), a.rest);
    NameOnly(a.rest);
    var n := ReadString(1, a.rest);
    NameOnly(n.rest);
    var m := ReadString(1, n.rest);
    ClarityValuesOnly(c, m.rest);
    var v := ReadClarityValues(c, m.rest);
    var e := EncodeClarityValues(c, v.value);
    Exact(m.rest, e, v.rest);
    Loosen(m.rest, e, v.rest);
    assert m.rest[..|m.rest| - |v.rest|] == e;
    Chain(true, n.rest, EncodeString(1, m.value), m.rest, e, v.rest);
    Chain(true, a.rest, EncodeString(1, n.value), n.rest, EncodeString(1, m.value) + e, v.rest);
    Chain(true, bs, EncodeAddress(a.value), a.rest, EncodeString(1, n.value) + (EncodeString(1, m.value) + e), v.rest);
  }

  lemma TransferOnly(bs: Bytes)
    requires var p := ReadRecipient(bs);
             p.Got? && (var n := ReadUInt(8, p.rest); n.Got? && ReadBuffer(34, n.rest).Got?)
    ensures var p := ReadRecipient(bs);
            var n := ReadUInt(8, p.rest);
            var m := ReadBuffer(34, n.rest);
            && GoodPrincipal(p.value) && !p.value.Origin? && n.value < Width(8) && |m.value| == 34
            && Splits(true, bs, EncodeRecipient(p.value) + (EncodeUInt(8, n.value) + m.value), m.rest)
  {
    hide ReadRecipient, EncodeRecipient, GoodPrincipal, ReadUInt, EncodeUInt, ReadBuffer, Splits, Width;
    RecipientOnly(bs);
    var p := ReadRecipient(bs);
    UIntOnly(8, p.rest);
    var n := ReadUInt(8, p.rest);
    BufferOnly(34, n.rest);
    var m := ReadBuffer(34, n.rest);
    Chain(false, p.rest, EncodeUInt(8, n.value), n.rest, m.value, m.rest);
    Loosen(p.rest, EncodeUInt(8, n.value) + m.value, m.rest);
    Chain(true, bs, EncodeRecipient(p.value), p.rest, EncodeUInt(8, n.value) + m.value, m.rest);
  }

  lemma DeploymentOnly(bs: Bytes)
    requires var n := ReadString(1, bs); n.Got? && ReadString(4, n.rest).Got?
    ensures var n := ReadString(1, bs);
            var b := ReadString(4, n.rest);
            GoodName(n.value) && |b.value| < Width(4) && Splits(true, bs, EncodeString(1, n.value) + EncodeString(4, b.value), b.rest)
  {
    hide ReadString, EncodeString, Splits, Width;
    NameOnly(bs);
    var n := ReadString(1, bs);
    StringOnly(4, n.rest);
    var b := ReadString(4, n.rest);
    Chain(true, bs, EncodeString(1, n.value), n.rest, EncodeString(4, b.value), b.rest);
  }

  lemma HeadersOnly(bs: Bytes)
    requires var h := ReadBuffer(132, bs); h.Got? && ReadBuffer(132, h.rest).Got?
    ensures var h := ReadBuffer(132, bs);
            var k := ReadBuffer(132, h.rest);
            |h.value| == |k.value| == 132 && Splits(true, bs, h.value + k.value, k.rest)
  {
    hide ReadBuffer, Splits;
    BufferOnly(132, bs);
    var h := ReadBuffer(132, bs);
    BufferOnly(132, h.rest);
    var k := ReadBuffer(132, h.rest);
    Chain(false, bs, h.value, h.rest, k.value, k.rest);
    Loosen(bs, h.value + k.value, k.rest);
  }

  lemma PayloadOnly<V(!new)>(c: Codec<V>, bs: Bytes)
    requires Canonical(c) && ReadPayload(c, bs).Got?
    ensures var r := ReadPayload(c, bs);
            && GoodPayload(r.value.payload) && r.value.rawFunctionArgs == RawArgs(c, r.value.payload)
            && Splits(true, bs, EncodePayload(c, r.value.payload), r.rest)
  {
    hide ReadEnum, ReadRecipient, EncodeRecipient, ReadString, EncodeString, ReadUInt, EncodeUInt, ReadBuffer,
         Width, Canonical, ReadContractCall, EncodeAddress, EncodeClarityValues, Splits;
    var t := ReadEnum("payload type", {0, 1, 2, 3, 4}, bs);
    EnumOnly("payload type", {0, 1, 2, 3, 4}, bs);
    Loosen(bs, [t.value], t.rest);
    var r := ReadPayload(c, bs);
    if t.value == 4 {
      BufferOnly(32, t.rest);
      Loosen(t.rest, r.value.payload.data, r.rest);
      Chain(true, bs, [4], t.rest, r.value.payload.data, r.rest);
    } else if t.value == 0 {
      TransferOnly(t.rest);
      var p := r.value.payload;
      Chain(true, bs, [0], t.rest, EncodeRecipient(p.recipient) + (EncodeUInt(8, p.amount) + p.memo), r.rest);
    } else if t.value == 1 {
      DeploymentOnly(t.rest);
      var p := r.value.payload;
      Chain(true, bs, [1], t.rest, EncodeString(1, p.name) + EncodeString(4, p.codeBody), r.rest);
    } else if t.value == 2 {
      ContractCallOnly(c, t.rest);
      var p := r.value.payload;
      Chain(true, bs, [2], t.rest, EncodeAddress(p.address) + (EncodeString(1, p.contractName) +
                                   (EncodeString(1, p.functionName) + EncodeClarityValues(c, p.args))), r.rest);
    } else {
      HeadersOnly(t.rest);
      var p := r.value.payload;
      Chain(true, bs, [3], t.rest, p.header1 + p.header2, r.rest);
    }
  }

  // ---- Transactions ----------------------------------------------------------------

  /** What comes before the post-conditions: no text. */
  function EncodeHeader<V>(t: Transaction<V>): Bytes {
    [if t.mainnet then 0x00 else 0x80] + (EncodeUInt(4, t.chainId) + (EncodeAuth(t.auth) + ([t.anchorMode] + [t.postConditionMode])))
  }

  lemma HeaderOnly(bs: Bytes)
    requires var v := ReadEnum("version", {0x00, 0x80}, bs);
             v.Got? && (var i := ReadUInt(4, v.rest);
             i.Got? && (var a := ReadAuth(i.rest);
             a.Got? && (var m := ReadEnum("anchor mode", {1, 2, 3}, a.rest);
             m.Got? && ReadEnum("post condition mode", {1, 2}, m.rest).Got?)))
    ensures var v := ReadEnum("version", {0x00, 0x80}, bs);
            var i := ReadUInt(4, v.rest);
            var a := ReadAuth(i.rest);
            var m := ReadEnum("anchor mode", {1, 2, 3}, a.rest);
            var p := ReadEnum("post condition mode", {1, 2}, m.rest);
            && (v.value == 0x00 || v.value == 0x80) && i.value < Width(4) && GoodAuth(a.value) && 1 <= m.value <= 3 && 1 <= p.value <= 2
            && bs == [v.value] + (EncodeUInt(4, i.value) + (EncodeAuth(a.value) + ([m.value] + [p.value]))) + p.rest
  {
    hide ReadEnum, ReadUInt, EncodeUInt, ReadAuth, EncodeAuth, GoodAuth, Splits, Width;
    var v := ReadEnum("version", {0x00, 0x80}, bs);
    EnumOnly("version", {0x00, 0x80}, bs);
    UIntOnly(4, v.rest);
    var i := ReadUInt(4, v.rest);
    AuthOnly(i.rest);
    var a := ReadAuth(i.rest);
    EnumOnly("anchor mode", {1, 2, 3}, a.rest);
    var m := ReadEnum("anchor mode", {1, 2, 3}, a.rest);
    EnumOnly("post condition mode", {1, 2}, m.rest);
    var p := ReadEnum("post condition mode", {1, 2}, m.rest);
    var x, y, z := EncodeUInt(4, i.value), EncodeAuth(a.value), [m.value] + [p.value];
    Chain(false, a.rest, [m.value], m.rest, [p.value], p.rest);
    Chain(false, i.rest, y, a.rest, z, p.rest);
    Chain(false, v.rest, x, i.rest, y + z, p.rest);
    Chain(false, bs, [v.value], v.rest, x + (y + z), p.rest);
    Exact(bs, [v.value] + (x + (y + z)), p.rest);
  }

  /** The reader succeeds only on the bytes of a well-formed transaction followed by what it
      leaves: the header to the byte, the post-conditions and the payload up to high bits. */
  lemma ReadsOnlyEncodings<V(!new)>(c: Codec<V>, bs: Bytes)
    requires Canonical(c) && ReadTransaction(c, bs).Got?
    ensures var r := ReadTransaction(c, bs);
            var t := r.value.tx;
            && GoodTransaction(t) && r.value.rawFunctionArgs == RawArgs(c, t.payload)
            && EncodeTransaction(c, t) == EncodeHeader(t) + (EncodePostConditions(c, t.postConditions) + EncodePayload(c, t.payload))
            && |EncodeHeader(t)| <= |bs| && bs[..|EncodeHeader(t)|] == EncodeHeader(t)
            && Splits(true, bs[|EncodeHeader(t)|..], EncodePostConditions(c, t.postConditions) + EncodePayload(c, t.payload), r.rest)
  {
    hide ReadEnum, ReadUInt, EncodeUInt, ReadAuth, EncodeAuth, GoodAuth, ReadPostConditions, EncodePostConditions, GoodPostConditions,
         ReadPayload, EncodePayload, GoodPayload, RawArgs, Width, Canonical, Splits;
    HeaderOnly(bs);
    var v := ReadEnum("version", {0x00, 0x80}, bs);
    var i := ReadUInt(4, v.rest);
    var a := ReadAuth(i.rest);
    var m := ReadEnum("anchor mode", {1, 2, 3}, a.rest);
    var p := ReadEnum("post condition mode", {1, 2}, m.rest);
    PostConditionsOnly(c, p.rest);
    var q := ReadPostConditions(c, p.rest);
    PayloadOnly(c, q.rest);
    var l := ReadPayload(c, q.rest);
    Chain(true, p.rest, EncodePostConditions(c, q.value), q.rest, EncodePayload(c, l.value.payload), l.rest);
    var t := ReadTransaction(c, bs).value.tx;
    HeaderAndBody(c, t);
  }

  lemma HeaderAndBody<V>(c: Codec<V>, t: Transaction<V>)
    requires GoodPayload(t.payload)
    ensures EncodeTransaction(c, t) == EncodeHeader(t) + (EncodePostConditions(c, t.postConditions) + EncodePayload(c, t.payload))
  {
    hide EncodeUInt, EncodeAuth, EncodePostConditions, EncodePayload;
    var v: Bytes := [if t.mainnet then 0x00 else 0x80];
    var x, y, am, pm := EncodeUInt(4, t.chainId), EncodeAuth(t.auth), [t.anchorMode], [t.postConditionMode];
    var body := EncodePostConditions(c, t.postConditions) + EncodePayload(c, t.payload);
    Assoc(v, x + (y + (am + pm)), body);
    Assoc(x, y + (am + pm), body);
    Assoc(y, am + pm, body);
    Assoc(am, pm, body);
  }
}
