/** The transaction wire format of SIP-005, section "Transaction Encoding": the reader and
    the encoding it inverts. */
module Wire {
  import opened Tables
  import Positional

  type Byte = Positional.Byte
  type Bytes = seq<Byte>
  /** An ASCII code. */
  type Ascii = x: int | 0 <= x < 128

  datatype ReadError = UnexpectedEnd | UnexpectedValue(field: string, value: int) | BadClarityValue

  /** The outcome of a reader: a value and the bytes left, or an error. */
  datatype Read<+T> = Got(value: T, rest: Bytes) | Failed(error: ReadError) {
    predicate IsFailure() { Failed? }
    function PropagateFailure<U>(): Read<U>
      requires Failed?
    {
      Failed(error)
    }
    function Extract(): (T, Bytes)
      requires Got?
    {
      (value, rest)
    }
  }

  /** Clarity values are read and written by library code. All that is used of it: decoding
      looks at a byte string and yields a value and how many bytes it took. */
  datatype Codec<!V> = Codec(decode: Bytes -> Option<(V, nat)>, serialize: V -> Bytes) {
    function Deserialize(bs: Bytes): Read<V> {
      match decode(bs)
      case Some((v, n)) => if n <= |bs| then Got(v, bs[n..]) else Failed(UnexpectedEnd)
      case None => Failed(BadClarityValue)
    }
  }

  /** Deserialising reads exactly what serialising wrote, whatever follows. */
  ghost predicate Faithful<V(!new)>(c: Codec<V>) {
    forall v, s {:trigger c.serialize(v) + s} :: c.Deserialize(c.serialize(v) + s) == Got(v, s)
  }

  // ---- Data ------------------------------------------------------------------------

  datatype Address = Address(version: Byte, hash160: Bytes)

  datatype AuthField =
    | PublicKey(uncompressed: bool, key: Bytes)
    | Signature(uncompressed: bool, signature: Bytes)

  datatype SpendingCondition =
    | SingleSig(segwit: bool, signer: Bytes, nonce: nat, feeRate: nat, keyEncoding: Byte, signature: Bytes)
    | MultiSig(segwit: bool, signer: Bytes, nonce: nat, feeRate: nat, fields: seq<AuthField>, signatureCount: nat)

  datatype Auth = Standard(origin: SpendingCondition) | Sponsored(origin: SpendingCondition, sponsor: SpendingCondition)

  datatype Principal =
    | Origin
    | StandardPrincipal(address: Address)
    | ContractPrincipal(address: Address, name: seq<Ascii>)

  datatype AssetInfo = AssetInfo(address: Address, contractName: seq<Ascii>, assetName: seq<Ascii>)

  datatype PostCondition<+V> =
    | StxCondition(principal: Principal, code: Byte, amount: nat)
    | FungibleCondition(principal: Principal, asset: AssetInfo, code: Byte, amount: nat)
    | NonfungibleCondition(principal: Principal, asset: AssetInfo, assetValue: V, code: Byte)

  datatype Payload<+V> =
    | TokenTransfer(recipient: Principal, amount: nat, memo: Bytes)
    | SmartContract(name: seq<Ascii>, codeBody: seq<Ascii>)
    | ContractCall(address: Address, contractName: seq<Ascii>, functionName: seq<Ascii>, args: seq<V>)
    | PoisonMicroblock(header1: Bytes, header2: Bytes)
    | Coinbase(data: Bytes)

  datatype Transaction<+V> = Transaction(mainnet: bool, chainId: nat, auth: Auth, anchorMode: Byte,
                                         postConditionMode: Byte, postConditions: seq<PostCondition<V>>,
                                         payload: Payload<V>)

  /** What `readTransaction` returns: the transaction and the raw slices it keeps. */
  datatype ReadTx<+V> = ReadTx(tx: Transaction<V>, rawPostConditions: Bytes, rawFunctionArgs: Option<Bytes>)

  const MICROBLOCK_HEADER_SIZE := 1 + 2 + 32 + 32 + 65

  // ---- Numbers and byte strings ----------------------------------------------------

  /** How many numbers n bytes can hold. */
  function Width(n: nat): nat {
    Positional.Pow(256, n)
  }

  /** Big-endian, n bytes. */
  function EncodeUInt(n: nat, v: nat): (r: Bytes)
    ensures |r| == n
  {
    if n == 0 then [] else EncodeUInt(n - 1, v / 256) + [v % 256]
  }

  function UIntValue(bs: Bytes): nat {
    Positional.ValueNonNegative(256, bs);
    Positional.Value(256, bs)
  }

  function ReadBuffer(n: nat, bs: Bytes): (r: Read<Bytes>)
    ensures r.Got? ==> |r.value| == n
  {
    if |bs| < n then Failed(UnexpectedEnd) else Got(bs[..n], bs[n..])
  }

  function ReadUInt(n: nat, bs: Bytes): Read<nat> {
    var (b, rest) :- ReadBuffer(n, bs);
    Got(UIntValue(b), rest)
  }

  function ReadByte(bs: Bytes): Read<Byte> {
    if bs == [] then Failed(UnexpectedEnd) else Got(bs[0], bs[1..])
  }

  /** `readUInt8Enum`. */
  function ReadEnum(field: string, members: set<Byte>, bs: Bytes): Read<Byte> {
    var (b, rest) :- ReadByte(bs);
    if b in members then Got(b, rest) else Failed(UnexpectedValue(field, b))
  }

  /** Decoding as 'ascii' drops the high bit. */
  function AsciiOf(bs: Bytes): seq<Ascii> {
    seq(|bs|, i requires 0 <= i < |bs| => bs[i] % 128)
  }

  function BytesOf(s: seq<Ascii>): Bytes {
    seq(|s|, i requires 0 <= i < |s| => s[i])
  }

  /** A length of n bytes, then that many ASCII bytes. */
  function ReadString(n: nat, bs: Bytes): Read<seq<Ascii>> {
    var (len, rest) :- ReadUInt(n, bs);
    var (b, rest) :- ReadBuffer(len, rest);
    Got(AsciiOf(b), rest)
  }

  function EncodeString(n: nat, s: seq<Ascii>): Bytes {
    EncodeUInt(n, |s|) + BytesOf(s)
  }

  lemma {:induction false} UIntRoundTrip(n: nat, v: nat)
    requires v < Width(n)
    ensures UIntValue(EncodeUInt(n, v)) == v
  {
    if n > 0 {
      UIntRoundTrip(n - 1, v / 256);
      var e := EncodeUInt(n - 1, v / 256);
      assert (e + [v % 256])[..n - 1] == e;
    }
  }

  lemma BufferRead(b: Bytes, s: Bytes)
    ensures ReadBuffer(|b|, b + s) == Got(b, s)
  {
  }

  lemma UIntRead(n: nat, v: nat, s: Bytes)
    requires v < Width(n)
    ensures ReadUInt(n, EncodeUInt(n, v) + s) == Got(v, s)
  {
    BufferRead(EncodeUInt(n, v), s);
    UIntRoundTrip(n, v);
  }

  lemma ByteRead(b: Byte, s: Bytes)
    ensures ReadByte([b] + s) == Got(b, s)
  {
  }

  lemma StringRead(n: nat, t: seq<Ascii>, s: Bytes)
    requires |t| < Width(n)
    ensures ReadString(n, EncodeString(n, t) + s) == Got(t, s)
  {
    assert EncodeString(n, t) + s == EncodeUInt(n, |t|) + (BytesOf(t) + s);
    UIntRead(n, |t|, BytesOf(t) + s);
    BufferRead(BytesOf(t), s);
    assert AsciiOf(BytesOf(t)) == t;
  }

  // ---- Addresses and principals ----------------------------------------------------

  function ReadAddress(bs: Bytes): Read<Address> {
    var (version, rest) :- ReadByte(bs);
    var (hash160, rest) :- ReadBuffer(20, rest);
    Got(Address(version, hash160), rest)
  }

  function EncodeAddress(a: Address): Bytes {
    [a.version] + a.hash160
  }

  predicate GoodAddress(a: Address) {
    |a.hash160| == 20
  }

  lemma AddressRead(a: Address, s: Bytes)
    requires GoodAddress(a)
    ensures ReadAddress(EncodeAddress(a) + s) == Got(a, s)
  {
    assert EncodeAddress(a) + s == [a.version] + (a.hash160 + s);
    ByteRead(a.version, a.hash160 + s);
    BufferRead(a.hash160, s);
  }

  predicate GoodName(n: seq<Ascii>) {
    |n| < 256
  }

  /** `readTransactionPostConditionPrincipal`. */
  function ReadPrincipal(bs: Bytes): Read<Principal> {
    var (typeId, rest) :- ReadEnum("post condition principal type", {1, 2, 3}, bs);
    if typeId == 1 then Got(Origin, rest)
    else if typeId == 2 then
      var (address, rest) :- ReadAddress(rest);
      Got(StandardPrincipal(address), rest)
    else
      var (address, rest) :- ReadAddress(rest);
      var (name, rest) :- ReadString(1, rest);
      Got(ContractPrincipal(address, name), rest)
  }

  function EncodePrincipal(p: Principal): Bytes {
    match p
    case Origin => [1]
    case StandardPrincipal(a) => [2] + EncodeAddress(a)
    case ContractPrincipal(a, n) => [3] + EncodeAddress(a) + EncodeString(1, n)
  }

  predicate GoodPrincipal(p: Principal) {
    match p
    case Origin => true
    case StandardPrincipal(a) => GoodAddress(a)
    case ContractPrincipal(a, n) => GoodAddress(a) && GoodName(n)
  }

  lemma PrincipalRead(p: Principal, s: Bytes)
    requires GoodPrincipal(p)
    ensures ReadPrincipal(EncodePrincipal(p) + s) == Got(p, s)
  {
    hide ReadAddress, EncodeAddress, ReadString, EncodeString;
    match p {
      case Origin =>
        ByteRead(1, s);
      case StandardPrincipal(a) =>
        assert EncodePrincipal(p) + s == [2] + (EncodeAddress(a) + s);
        ByteRead(2, EncodeAddress(a) + s);
        AddressRead(a, s);
      case ContractPrincipal(a, n) =>
        var t := EncodeString(1, n) + s;
        assert EncodePrincipal(p) + s == [3] + (EncodeAddress(a) + t);
        ByteRead(3, EncodeAddress(a) + t);
        AddressRead(a, t);
        assert Width(1) == 256 * Width(0);
        StringRead(1, n, s);
    }
  }

  // ---- Lists -----------------------------------------------------------------------

  /** The element reader, n times. */
  function ReadItems<T>(n: nat, item: Bytes -> Read<T>, bs: Bytes): Read<seq<T>>
    decreases n
  {
    if n == 0 then Got([], bs) else
    var (x, rest) :- item(bs);
    var (xs, rest) :- ReadItems(n - 1, item, rest);
    Got([x] + xs, rest)
  }

  /** A four-byte count, then that many elements. */
  function ReadList<T>(item: Bytes -> Read<T>, bs: Bytes): Read<seq<T>> {
    var (n, rest) :- ReadUInt(4, bs);
    ReadItems(n, item, rest)
  }

  function EncodeItems<T>(xs: seq<T>, encode: T -> Bytes): Bytes {
    if xs == [] then [] else encode(xs[0]) + EncodeItems(xs[1..], encode)
  }

  function EncodeList<T>(xs: seq<T>, encode: T -> Bytes): Bytes {
    EncodeUInt(4, |xs|) + EncodeItems(xs, encode)
  }

  /** The element reader inverts the element encoder on these values, whatever follows. */
  ghost predicate Inverts<T>(item: Bytes -> Read<T>, encode: T -> Bytes, xs: seq<T>) {
    forall x, s {:trigger encode(x) + s} :: x in xs ==> item(encode(x) + s) == Got(x, s)
  }

  lemma {:induction false} ItemsRead<T>(xs: seq<T>, item: Bytes -> Read<T>, encode: T -> Bytes, s: Bytes)
    requires Inverts(item, encode, xs)
    ensures ReadItems(|xs|, item, EncodeItems(xs, encode) + s) == Got(xs, s)
  {
    if xs != [] {
      var more := EncodeItems(xs[1..], encode) + s;
      assert EncodeItems(xs, encode) + s == encode(xs[0]) + more;
      ItemsRead(xs[1..], item, encode, s);
      assert xs == [xs[0]] + xs[1..];
    }
  }

  lemma ListRead<T>(xs: seq<T>, item: Bytes -> Read<T>, encode: T -> Bytes, s: Bytes)
    requires Inverts(item, encode, xs) && |xs| < Width(4)
    ensures ReadList(item, EncodeList(xs, encode) + s) == Got(xs, s)
  {
    assert EncodeList(xs, encode) + s == EncodeUInt(4, |xs|) + (EncodeItems(xs, encode) + s);
    UIntRead(4, |xs|, EncodeItems(xs, encode) + s);
    ItemsRead(xs, item, encode, s);
  }

  // ---- Spending conditions ---------------------------------------------------------

  function ReadAuthField(bs: Bytes): Read<AuthField> {
    var (typeId, rest) :- ReadEnum("auth field type", {0, 1, 2, 3}, bs);
    if typeId <= 1 then
      var (key, rest) :- ReadBuffer(33, rest);
      Got(PublicKey(typeId == 1, key), rest)
    else
      var (signature, rest) :- ReadBuffer(65, rest);
      Got(Signature(typeId == 3, signature), rest)
  }

  function EncodeAuthField(f: AuthField): Bytes {
    match f
    case PublicKey(u, key) => [if u then 1 else 0] + key
    case Signature(u, sig) => [if u then 3 else 2] + sig
  }

  predicate GoodAuthField(f: AuthField) {
    match f case PublicKey(_, key) => |key| == 33 case Signature(_, sig) => |sig| == 65
  }

  lemma AuthFieldRead(f: AuthField, s: Bytes)
    requires GoodAuthField(f)
    ensures ReadAuthField(EncodeAuthField(f) + s) == Got(f, s)
  {
    var body := if f.PublicKey? then f.key else f.signature;
    assert EncodeAuthField(f) + s == [EncodeAuthField(f)[0]] + (body + s);
    ByteRead(EncodeAuthField(f)[0], body + s);
    BufferRead(body, s);
  }

  /** `readTransactionSpendingCondition`: hash modes 0 and 2 are single, 1 and 3 multi signature. */
  function ReadSpendingCondition(bs: Bytes): Read<SpendingCondition> {
    var (mode, rest) :- ReadEnum("spend condition hash mode", {0, 1, 2, 3}, bs);
    var (signer, rest) :- ReadBuffer(20, rest);
    var (nonce, rest) :- ReadUInt(8, rest);
    var (feeRate, rest) :- ReadUInt(8, rest);
    if mode % 2 == 0 then
      var (keyEncoding, rest) :- ReadByte(rest);
      var (signature, rest) :- ReadBuffer(65, rest);
      Got(SingleSig(mode == 2, signer, nonce, feeRate, keyEncoding, signature), rest)
    else
      var (fields, rest) :- ReadList(ReadAuthField, rest);
      var (signatureCount, rest) :- ReadUInt(2, rest);
      Got(MultiSig(mode == 3, signer, nonce, feeRate, fields, signatureCount), rest)
  }

  function HashMode(c: SpendingCondition): Byte {
    (if c.segwit then 2 else 0) + (if c.MultiSig? then 1 else 0)
  }

  function EncodeSpendingCondition(c: SpendingCondition): Bytes {
    [HashMode(c)] + (c.signer + (EncodeUInt(8, c.nonce) + (EncodeUInt(8, c.feeRate) + EncodeSigs(c))))
  }

  predicate GoodSpendingCondition(c: SpendingCondition) {
    && |c.signer| == 20 && c.nonce < Width(8) && c.feeRate < Width(8)
    && match c
       case SingleSig(_, _, _, _, _, signature) => |signature| == 65
       case MultiSig(_, _, _, _, fields, n) =>
         |fields| < Width(4) && n < Width(2) && forall f :: f in fields ==> GoodAuthField(f)
  }

  lemma AuthFieldsRead(fields: seq<AuthField>, s: Bytes)
    requires |fields| < Width(4) && forall f :: f in fields ==> GoodAuthField(f)
    ensures ReadList(ReadAuthField, EncodeList(fields, EncodeAuthField) + s) == Got(fields, s)
  {
    forall f, t | f in fields ensures ReadAuthField(EncodeAuthField(f) + t) == Got(f, t) {
      AuthFieldRead(f, t);
    }
    ListRead(fields, ReadAuthField, EncodeAuthField, s);
  }

  lemma Assoc(a: Bytes, b: Bytes, c: Bytes)
    ensures (a + b) + c == a + (b + c)
  {
  }

  /** What distinguishes the two kinds of condition comes last. */
  function EncodeSigs(c: SpendingCondition): Bytes {
    match c
    case SingleSig(_, _, _, _, keyEncoding, signature) => [keyEncoding] + signature
    case MultiSig(_, _, _, _, fields, n) => EncodeList(fields, EncodeAuthField) + EncodeUInt(2, n)
  }

  lemma SpendingConditionRead(c: SpendingCondition, s: Bytes)
    requires GoodSpendingCondition(c)
    ensures ReadSpendingCondition(EncodeSpendingCondition(c) + s) == Got(c, s)
  {
    hide ReadUInt, EncodeUInt, ReadBuffer, ReadByte, ReadList, EncodeList, Width;
    var e3 := EncodeSigs(c) + s;
    var e2 := EncodeUInt(8, c.feeRate) + e3;
    var e1 := EncodeUInt(8, c.nonce) + e2;
    SpendingConditionPrefix(c, s);
    ByteRead(HashMode(c), c.signer + e1);
    BufferRead(c.signer, e1);
    UIntRead(8, c.nonce, e2);
    UIntRead(8, c.feeRate, e3);
    match c {
      case SingleSig(_, _, _, _, keyEncoding, signature) =>
        Assoc([keyEncoding], signature, s);
        ByteRead(keyEncoding, signature + s);
        BufferRead(signature, s);
      case MultiSig(_, _, _, _, fields, n) =>
        Assoc(EncodeList(fields, EncodeAuthField), EncodeUInt(2, n), s);
        AuthFieldsRead(fields, EncodeUInt(2, n) + s);
        UIntRead(2, n, s);
    }
  }

  lemma SpendingConditionPrefix(c: SpendingCondition, s: Bytes)
    ensures EncodeSpendingCondition(c) + s ==
            [HashMode(c)] + (c.signer + (EncodeUInt(8, c.nonce) + (EncodeUInt(8, c.feeRate) + (EncodeSigs(c) + s))))
  {
    hide EncodeUInt, EncodeList;
    var m := EncodeSigs(c);
    Assoc([HashMode(c)], c.signer + (EncodeUInt(8, c.nonce) + (EncodeUInt(8, c.feeRate) + m)), s);
    Assoc(c.signer, EncodeUInt(8, c.nonce) + (EncodeUInt(8, c.feeRate) + m), s);
    Assoc(EncodeUInt(8, c.nonce), EncodeUInt(8, c.feeRate) + m, s);
    Assoc(EncodeUInt(8, c.feeRate), m, s);
  }

  // ---- Post conditions -------------------------------------------------------------

  function ReadAssetInfo(bs: Bytes): Read<AssetInfo> {
    var (address, rest) :- ReadAddress(bs);
    var (contractName, rest) :- ReadString(1, rest);
    var (assetName, rest) :- ReadString(1, rest);
    Got(AssetInfo(address, contractName, assetName), rest)
  }

  function EncodeAssetInfo(a: AssetInfo): Bytes {
    EncodeAddress(a.address) + (EncodeString(1, a.contractName) + EncodeString(1, a.assetName))
  }

  predicate GoodAssetInfo(a: AssetInfo) {
    GoodAddress(a.address) && GoodName(a.contractName) && GoodName(a.assetName)
  }

  lemma NameRead(n: seq<Ascii>, s: Bytes)
    requires GoodName(n)
    ensures ReadString(1, EncodeString(1, n) + s) == Got(n, s)
  {
    assert Width(1) == 256 * Width(0);
    StringRead(1, n, s);
  }

  lemma AssetInfoRead(a: AssetInfo, s: Bytes)
    requires GoodAssetInfo(a)
    ensures ReadAssetInfo(EncodeAssetInfo(a) + s) == Got(a, s)
  {
    hide ReadAddress, EncodeAddress, ReadString, EncodeString;
    var x, y, z := EncodeAddress(a.address), EncodeString(1, a.contractName), EncodeString(1, a.assetName);
    Assoc(x, y + z, s);
    Assoc(y, z, s);
    AddressRead(a.address, y + (z + s));
    NameRead(a.contractName, z + s);
    NameRead(a.assetName, s);
  }

  /** One turn of the loop in `readTransactionPostConditions`. */
  function ReadPostCondition<V>(c: Codec<V>, bs: Bytes): Read<PostCondition<V>> {
    var (typeId, rest) :- ReadEnum("asset info type", {0, 1, 2}, bs);
    var (principal, rest) :- ReadPrincipal(rest);
    if typeId == 0 then
      var (code, rest) :- ReadEnum("condition code", {1, 2, 3, 4, 5}, rest);
      var (amount, rest) :- ReadUInt(8, rest);
      Got(StxCondition(principal, code, amount), rest)
    else
      var (asset, rest) :- ReadAssetInfo(rest);
      if typeId == 1 then
        var (code, rest) :- ReadEnum("condition code", {1, 2, 3, 4, 5}, rest);
        var (amount, rest) :- ReadUInt(8, rest);
        Got(FungibleCondition(principal, asset, code, amount), rest)
      else
        var (value, rest) :- c.Deserialize(rest);
        var (code, rest) :- ReadEnum("nonfungible condition code", {0x10, 0x11}, rest);
        Got(NonfungibleCondition(principal, asset, value, code), rest)
  }

  function EncodePostCondition<V>(c: Codec<V>, p: PostCondition<V>): Bytes {
    match p
    case StxCondition(principal, code, amount) =>
      [0] + (EncodePrincipal(principal) + ([code] + EncodeUInt(8, amount)))
    case FungibleCondition(principal, asset, code, amount) =>
      [1] + (EncodePrincipal(principal) + (EncodeAssetInfo(asset) + ([code] + EncodeUInt(8, amount))))
    case NonfungibleCondition(principal, asset, value, code) =>
      [2] + (EncodePrincipal(principal) + (EncodeAssetInfo(asset) + (c.serialize(value) + [code])))
  }

  predicate GoodPostCondition<V>(p: PostCondition<V>) {
    && GoodPrincipal(p.principal)
    && match p
       case StxCondition(_, code, amount) => 1 <= code <= 5 && amount < Width(8)
       case FungibleCondition(_, asset, code, amount) => GoodAssetInfo(asset) && 1 <= code <= 5 && amount < Width(8)
       case NonfungibleCondition(_, asset, _, code) => GoodAssetInfo(asset) && 0x10 <= code <= 0x11
  }

  lemma EnumRead(field: string, members: set<Byte>, b: Byte, s: Bytes)
    requires b in members
    ensures ReadEnum(field, members, [b] + s) == Got(b, s)
  {
    ByteRead(b, s);
  }

  lemma PostConditionRead<V(!new)>(c: Codec<V>, p: PostCondition<V>, s: Bytes)
    requires Faithful(c) && GoodPostCondition(p)
    ensures ReadPostCondition(c, EncodePostCondition(c, p) + s) == Got(p, s)
  {
    hide ReadPrincipal, EncodePrincipal, ReadAssetInfo, EncodeAssetInfo, ReadUInt, EncodeUInt, ReadEnum, Width, Faithful;
    var x := EncodePrincipal(p.principal);
    match p {
      case StxCondition(principal, code, amount) =>
        var y := EncodeUInt(8, amount);
        Assoc([0], x + ([code] + y), s);
        Assoc(x, [code] + y, s);
        Assoc([code], y, s);
        EnumRead("asset info type", {0, 1, 2}, 0, x + ([code] + (y + s)));
        PrincipalRead(principal, [code] + (y + s));
        EnumRead("condition code", {1, 2, 3, 4, 5}, code, y + s);
        UIntRead(8, amount, s);
      case FungibleCondition(principal, asset, code, amount) =>
        var y, z := EncodeAssetInfo(asset), EncodeUInt(8, amount);
        Assoc([1], x + (y + ([code] + z)), s);
        Assoc(x, y + ([code] + z), s);
        Assoc(y, [code] + z, s);
        Assoc([code], z, s);
        EnumRead("asset info type", {0, 1, 2}, 1, x + (y + ([code] + (z + s))));
        PrincipalRead(principal, y + ([code] + (z + s)));
        AssetInfoRead(asset, [code] + (z + s));
        EnumRead("condition code", {1, 2, 3, 4, 5}, code, z + s);
        UIntRead(8, amount, s);
      case NonfungibleCondition(principal, asset, value, code) =>
        var y, z := EncodeAssetInfo(asset), c.serialize(value);
        Assoc([2], x + (y + (z + [code])), s);
        Assoc(x, y + (z + [code]), s);
        Assoc(y, z + [code], s);
        Assoc(z, [code], s);
        EnumRead("asset info type", {0, 1, 2}, 2, x + (y + (z + ([code] + s))));
        PrincipalRead(principal, y + (z + ([code] + s)));
        AssetInfoRead(asset, z + ([code] + s));
        ClarityRead(c, value, [code] + s);
        EnumRead("nonfungible condition code", {0x10, 0x11}, code, s);
    }
  }

  lemma ClarityRead<V(!new)>(c: Codec<V>, v: V, s: Bytes)
    requires Faithful(c)
    ensures c.Deserialize(c.serialize(v) + s) == Got(v, s)
  {
  }

  function PostConditionReader<V>(c: Codec<V>): Bytes -> Read<PostCondition<V>> {
    (bs: Bytes) => ReadPostCondition(c, bs)
  }

  function PostConditionEncoder<V>(c: Codec<V>): PostCondition<V> -> Bytes {
    (p: PostCondition<V>) => EncodePostCondition(c, p)
  }

  function ReadPostConditions<V>(c: Codec<V>, bs: Bytes): Read<seq<PostCondition<V>>> {
    ReadList(PostConditionReader(c), bs)
  }

  function EncodePostConditions<V>(c: Codec<V>, ps: seq<PostCondition<V>>): Bytes {
    EncodeList(ps, PostConditionEncoder(c))
  }

  ghost predicate GoodPostConditions<V(!new)>(ps: seq<PostCondition<V>>) {
    |ps| < Width(4) && forall p :: p in ps ==> GoodPostCondition(p)
  }

  lemma PostConditionsRead<V(!new)>(c: Codec<V>, ps: seq<PostCondition<V>>, s: Bytes)
    requires Faithful(c) && GoodPostConditions(ps)
    ensures ReadPostConditions(c, EncodePostConditions(c, ps) + s) == Got(ps, s)
  {
    hide ReadPostCondition, EncodePostCondition, ReadList, EncodeList, Width, GoodPostCondition, Faithful;
    var item, encode := PostConditionReader(c), PostConditionEncoder(c);
    forall p, t | p in ps ensures item(encode(p) + t) == Got(p, t) {
      PostConditionRead(c, p, t);
    }
    ListRead(ps, item, encode, s);
  }

  // ---- Payloads --------------------------------------------------------------------

  /** `readClarityValueArray`. */
  function ReadClarityValues<V>(c: Codec<V>, bs: Bytes): Read<seq<V>> {
    ReadList(c.Deserialize, bs)
  }

  function EncodeClarityValues<V>(c: Codec<V>, vs: seq<V>): Bytes {
    EncodeList(vs, c.serialize)
  }

  lemma ClarityValuesRead<V(!new)>(c: Codec<V>, vs: seq<V>, s: Bytes)
    requires Faithful(c) && |vs| < Width(4)
    ensures ReadClarityValues(c, EncodeClarityValues(c, vs) + s) == Got(vs, s)
  {
    hide ReadList, EncodeList, Width;
    assert Inverts(c.Deserialize, c.serialize, vs);
    ListRead(vs, c.Deserialize, c.serialize, s);
  }

  /** The recipient of a token transfer: type 5 an address, type 6 a contract. */
  function ReadRecipient(bs: Bytes): Read<Principal> {
    var (typeId, rest) :- ReadByte(bs);
    if typeId == 5 then
      var (address, rest) :- ReadAddress(rest);
      Got(StandardPrincipal(address), rest)
    else if typeId == 6 then
      var (address, rest) :- ReadAddress(rest);
      var (name, rest) :- ReadString(1, rest);
      Got(ContractPrincipal(address, name), rest)
    else Failed(UnexpectedValue("recipient principal type", typeId))
  }

  function EncodeRecipient(p: Principal): Bytes
    requires !p.Origin?
  {
    match p
    case StandardPrincipal(a) => [5] + EncodeAddress(a)
    case ContractPrincipal(a, n) => [6] + (EncodeAddress(a) + EncodeString(1, n))
  }

  lemma RecipientRead(p: Principal, s: Bytes)
    requires GoodPrincipal(p) && !p.Origin?
    ensures ReadRecipient(EncodeRecipient(p) + s) == Got(p, s)
  {
    hide ReadAddress, EncodeAddress, ReadString, EncodeString;
    var x := EncodeAddress(p.address);
    match p {
      case StandardPrincipal(a) =>
        Assoc([5], x, s);
        ByteRead(5, x + s);
        AddressRead(a, s);
      case ContractPrincipal(a, n) =>
        var y := EncodeString(1, n);
        Assoc([6], x + y, s);
        Assoc(x, y, s);
        ByteRead(6, x + (y + s));
        AddressRead(a, y + s);
        NameRead(n, s);
    }
  }

  /** `readTransactionPayload`; the raw argument bytes are kept unless there are no arguments. */
  datatype ReadCall<+V> = ReadCall(payload: Payload<V>, rawFunctionArgs: Option<Bytes>)

  function ReadContractCall<V>(c: Codec<V>, bs: Bytes): Read<ReadCall<V>> {
    var (address, rest) :- ReadAddress(bs);
    var (contractName, rest) :- ReadString(1, rest);
    var (functionName, argBytes) :- ReadString(1, rest);
    var (args, rest) :- ReadClarityValues(c, argBytes);
    var raw := if |args| > 0 && |rest| <= |argBytes| then Some(argBytes[..|argBytes| - |rest|]) else None;
    Got(ReadCall(ContractCall(address, contractName, functionName, args), raw), rest)
  }

  function ReadPayload<V>(c: Codec<V>, bs: Bytes): Read<ReadCall<V>> {
    var (typeId, rest) :- ReadEnum("payload type", {0, 1, 2, 3, 4}, bs);
    if typeId == 4 then
      var (data, rest) :- ReadBuffer(32, rest);
      Got(ReadCall(Coinbase(data), None), rest)
    else if typeId == 0 then
      var (recipient, rest) :- ReadRecipient(rest);
      var (amount, rest) :- ReadUInt(8, rest);
      var (memo, rest) :- ReadBuffer(34, rest);
      Got(ReadCall(TokenTransfer(recipient, amount, memo), None), rest)
    else if typeId == 1 then
      var (name, rest) :- ReadString(1, rest);
      var (codeBody, rest) :- ReadString(4, rest);
      Got(ReadCall(SmartContract(name, codeBody), None), rest)
    else if typeId == 2 then
      ReadContractCall(c, rest)
    else
      var (header1, rest) :- ReadBuffer(MICROBLOCK_HEADER_SIZE, rest);
      var (header2, rest) :- ReadBuffer(MICROBLOCK_HEADER_SIZE, rest);
      Got(ReadCall(PoisonMicroblock(header1, header2), None), rest)
  }

  predicate GoodPayload<V>(p: Payload<V>) {
    match p
    case TokenTransfer(recipient, amount, memo) =>
      GoodPrincipal(recipient) && !recipient.Origin? && amount < Width(8) && |memo| == 34
    case SmartContract(name, code) => GoodName(name) && |code| < Width(4)
    case ContractCall(address, contractName, functionName, args) =>
      GoodAddress(address) && GoodName(contractName) && GoodName(functionName) && |args| < Width(4)
    case PoisonMicroblock(h1, h2) => |h1| == |h2| == 132
    case Coinbase(data) => |data| == 32
  }

  function EncodePayload<V>(c: Codec<V>, p: Payload<V>): Bytes
    requires GoodPayload(p)
  {
    match p
    case TokenTransfer(recipient, amount, memo) => [0] + (EncodeRecipient(recipient) + (EncodeUInt(8, amount) + memo))
    case SmartContract(name, code) => [1] + (EncodeString(1, name) + EncodeString(4, code))
    case ContractCall(address, contractName, functionName, args) =>
      [2] + (EncodeAddress(address) + (EncodeString(1, contractName) +
             (EncodeString(1, functionName) + EncodeClarityValues(c, args))))
    case PoisonMicroblock(h1, h2) => [3] + (h1 + h2)
    case Coinbase(data) => [4] + data
  }

  /** The raw argument bytes that a transaction with this payload is stored with. */
  function RawArgs<V>(c: Codec<V>, p: Payload<V>): Option<Bytes> {
    if p.ContractCall? && |p.args| > 0 then Some(EncodeClarityValues(c, p.args)) else None
  }

  lemma ContractCallRead<V(!new)>(c: Codec<V>, p: Payload<V>, s: Bytes)
    requires Faithful(c) && p.ContractCall? && GoodPayload(p)
    ensures EncodePayload(c, p) + s == [2] + (EncodePayload(c, p)[1..] + s)
    ensures ReadContractCall(c, EncodePayload(c, p)[1..] + s) == Got(ReadCall(p, RawArgs(c, p)), s)
  {
    hide ReadAddress, EncodeAddress, ReadString, EncodeString, ReadClarityValues, EncodeClarityValues, Width, Faithful;
    var x, y, z := EncodeAddress(p.address), EncodeString(1, p.contractName), EncodeString(1, p.functionName);
    var a := EncodeClarityValues(c, p.args);
    assert EncodePayload(c, p)[1..] == x + (y + (z + a));
    Assoc([2], x + (y + (z + a)), s);
    Assoc(x, y + (z + a), s);
    Assoc(y, z + a, s);
    Assoc(z, a, s);
    AddressRead(p.address, y + (z + (a + s)));
    NameRead(p.contractName, z + (a + s));
    NameRead(p.functionName, a + s);
    ClarityValuesRead(c, p.args, s);
    assert (a + s)[..|a + s| - |s|] == a;
  }

  lemma PayloadRead<V(!new)>(c: Codec<V>, p: Payload<V>, s: Bytes)
    requires Faithful(c) && GoodPayload(p)
    ensures ReadPayload(c, EncodePayload(c, p) + s) == Got(ReadCall(p, RawArgs(c, p)), s)
  {
    hide ReadRecipient, EncodeRecipient, ReadString, EncodeString, ReadUInt, EncodeUInt, ReadBuffer,
         ReadEnum, Width, Faithful, ReadContractCall, EncodeAddress, EncodeClarityValues;
    match p {
      case TokenTransfer(recipient, amount, memo) =>
        var x, y := EncodeRecipient(recipient), EncodeUInt(8, amount);
        Assoc([0], x + (y + memo), s);
        Assoc(x, y + memo, s);
        Assoc(y, memo, s);
        EnumRead("payload type", {0, 1, 2, 3, 4}, 0, x + (y + (memo + s)));
        RecipientRead(recipient, y + (memo + s));
        UIntRead(8, amount, memo + s);
        BufferRead(memo, s);
      case SmartContract(name, code) =>
        var x, y := EncodeString(1, name), EncodeString(4, code);
        Assoc([1], x + y, s);
        Assoc(x, y, s);
        EnumRead("payload type", {0, 1, 2, 3, 4}, 1, x + (y + s));
        NameRead(name, y + s);
        StringRead(4, code, s);
      case ContractCall(_, _, _, _) =>
        ContractCallRead(c, p, s);
        EnumRead("payload type", {0, 1, 2, 3, 4}, 2, EncodePayload(c, p)[1..] + s);
      case PoisonMicroblock(h1, h2) =>
        Assoc([3], h1 + h2, s);
        Assoc(h1, h2, s);
        EnumRead("payload type", {0, 1, 2, 3, 4}, 3, h1 + (h2 + s));
        BufferRead(h1, h2 + s);
        BufferRead(h2, s);
      case Coinbase(data) =>
        Assoc([4], data, s);
        EnumRead("payload type", {0, 1, 2, 3, 4}, 4, data + s);
        BufferRead(data, s);
    }
  }

  // ---- Transactions ----------------------------------------------------------------

  function ReadAuth(bs: Bytes): Read<Auth> {
    var (authType, rest) :- ReadEnum("auth type", {4, 5}, bs);
    var (origin, rest) :- ReadSpendingCondition(rest);
    if authType == 4 then Got(Standard(origin), rest)
    else
      var (sponsor, rest) :- ReadSpendingCondition(rest);
      Got(Sponsored(origin, sponsor), rest)
  }

  function EncodeAuth(a: Auth): Bytes {
    match a
    case Standard(origin) => [4] + EncodeSpendingCondition(origin)
    case Sponsored(origin, sponsor) => [5] + (EncodeSpendingCondition(origin) + EncodeSpendingCondition(sponsor))
  }

  predicate GoodAuth(a: Auth) {
    GoodSpendingCondition(a.origin) && (a.Sponsored? ==> GoodSpendingCondition(a.sponsor))
  }

  lemma AuthRead(a: Auth, s: Bytes)
    requires GoodAuth(a)
    ensures ReadAuth(EncodeAuth(a) + s) == Got(a, s)
  {
    hide ReadSpendingCondition, EncodeSpendingCondition, GoodSpendingCondition, ReadEnum;
    var x := EncodeSpendingCondition(a.origin);
    match a {
      case Standard(origin) =>
        Assoc([4], x, s);
        EnumRead("auth type", {4, 5}, 4, x + s);
        SpendingConditionRead(origin, s);
      case Sponsored(origin, sponsor) =>
        var y := EncodeSpendingCondition(sponsor);
        Assoc([5], x + y, s);
        Assoc(x, y, s);
        EnumRead("auth type", {4, 5}, 5, x + (y + s));
        SpendingConditionRead(origin, y + s);
        SpendingConditionRead(sponsor, s);
    }
  }

  /** The post-condition mode and list, and the bytes they were read from. */
  datatype Conditions<+V> = Conditions(mode: Byte, conditions: seq<PostCondition<V>>, raw: Bytes)

  function ReadConditions<V>(c: Codec<V>, bs: Bytes): Read<Conditions<V>> {
    var (mode, rest) :- ReadEnum("post condition mode", {1, 2}, bs);
    var (conditions, rest) :- ReadPostConditions(c, rest);
    Got(Conditions(mode, conditions, if |rest| <= |bs| then bs[..|bs| - |rest|] else []), rest)
  }

  /** `readTransaction`. The bytes from the post condition mode to the end of the post
      conditions are kept raw. */
  function ReadTransaction<V>(c: Codec<V>, bs: Bytes): Read<ReadTx<V>> {
    var (version, rest) :- ReadEnum("version", {0x00, 0x80}, bs);
    var (chainId, rest) :- ReadUInt(4, rest);
    var (auth, rest) :- ReadAuth(rest);
    var (anchorMode, rest) :- ReadEnum("anchor mode", {1, 2, 3}, rest);
    var (pc, rest) :- ReadConditions(c, rest);
    var (call, rest) :- ReadPayload(c, rest);
    Got(ReadTx(Transaction(version == 0, chainId, auth, anchorMode, pc.mode, pc.conditions, call.payload),
               pc.raw, call.rawFunctionArgs), rest)
  }

  ghost predicate GoodTransaction<V(!new)>(t: Transaction<V>) {
    && t.chainId < Width(4) && GoodAuth(t.auth) && 1 <= t.anchorMode <= 3 && 1 <= t.postConditionMode <= 2
    && GoodPostConditions(t.postConditions) && GoodPayload(t.payload)
  }

  function EncodeTransaction<V>(c: Codec<V>, t: Transaction<V>): Bytes
    requires GoodPayload(t.payload)
  {
    [if t.mainnet then 0x00 else 0x80] + (EncodeUInt(4, t.chainId) + (EncodeAuth(t.auth) + ([t.anchorMode] +
      ([t.postConditionMode] + (EncodePostConditions(c, t.postConditions) + EncodePayload(c, t.payload))))))
  }

  /** Reading an encoded transaction, whatever follows it, returns that transaction and stops
      exactly at what follows. */
  lemma {:induction false} TransactionRoundTrip<V(!new)>(c: Codec<V>, t: Transaction<V>, s: Bytes)
    requires Faithful(c) && GoodTransaction(t)
    ensures ReadTransaction(c, EncodeTransaction(c, t) + s) ==
            Got(ReadTx(t, [t.postConditionMode] + EncodePostConditions(c, t.postConditions), RawArgs(c, t.payload)), s)
  {
    hide ReadUInt, EncodeUInt, ReadAuth, EncodeAuth, GoodAuth, ReadEnum, Width, Faithful, GoodPayload, GoodPostConditions,
         ReadConditions, EncodePostConditions, ReadPayload, EncodePayload;
    var v: Byte := if t.mainnet then 0x00 else 0x80;
    var x, y := EncodeUInt(4, t.chainId), EncodeAuth(t.auth);
    var am, pm := [t.anchorMode], [t.postConditionMode];
    var pc, pl := EncodePostConditions(c, t.postConditions), EncodePayload(c, t.payload);
    Assoc([v], x + (y + (am + (pm + (pc + pl)))), s);
    Assoc(x, y + (am + (pm + (pc + pl))), s);
    Assoc(y, am + (pm + (pc + pl)), s);
    Assoc(am, pm + (pc + pl), s);
    Assoc(pm, pc + pl, s);
    Assoc(pc, pl, s);
    var after := pl + s;
    EnumRead("version", {0x00, 0x80}, v, x + (y + (am + (pm + (pc + after)))));
    UIntRead(4, t.chainId, y + (am + (pm + (pc + after))));
    AuthRead(t.auth, am + (pm + (pc + after)));
    EnumRead("anchor mode", {1, 2, 3}, t.anchorMode, pm + (pc + after));
    ConditionsRead(c, t.postConditionMode, t.postConditions, after);
    PayloadRead(c, t.payload, s);
  }

  lemma ConditionsRead<V(!new)>(c: Codec<V>, mode: Byte, ps: seq<PostCondition<V>>, s: Bytes)
    requires Faithful(c) && 1 <= mode <= 2 && GoodPostConditions(ps)
    ensures var pc := EncodePostConditions(c, ps);
            ReadConditions(c, [mode] + (pc + s)) == Got(Conditions(mode, ps, [mode] + pc), s)
  {
    hide ReadEnum, Faithful, GoodPostConditions, ReadPostConditions, EncodePostConditions;
    EnumRead("post condition mode", {1, 2}, mode, EncodePostConditions(c, ps) + s);
    PostConditionsRead(c, ps, s);
    TakeFront([mode], EncodePostConditions(c, ps), s);
  }

  lemma TakeFront(a: Bytes, b: Bytes, s: Bytes)
    ensures (a + (b + s))[..|a + (b + s)| - |s|] == a + b
  {
  }

  /** The stored raw bytes are enough: the mode is their first byte, the conditions are read
      back from the second, and the arguments from the stored argument bytes. */
  lemma RawBytesReread<V(!new)>(c: Codec<V>, t: Transaction<V>, s: Bytes)
    requires Faithful(c) && GoodTransaction(t)
    ensures var r := ReadTransaction(c, EncodeTransaction(c, t) + s);
            && r.Got?
            && |r.value.rawPostConditions| > 0 && r.value.rawPostConditions[0] == t.postConditionMode
            && ReadPostConditions(c, r.value.rawPostConditions[1..]) == Got(t.postConditions, [])
            && (r.value.rawFunctionArgs.Some? <==> t.payload.ContractCall? && |t.payload.args| > 0)
            && (r.value.rawFunctionArgs.Some? ==>
                  ReadClarityValues(c, r.value.rawFunctionArgs.value) == Got(t.payload.args, []))
  {
    TransactionRoundTrip(c, t, s);
    hide ReadTransaction, EncodeTransaction, ReadPostConditions, EncodePostConditions, ReadClarityValues, EncodeClarityValues;
    var pc := EncodePostConditions(c, t.postConditions);
    PostConditionsRead(c, t.postConditions, []);
    assert pc + [] == pc && ([t.postConditionMode] + pc)[1..] == pc;
    if t.payload.ContractCall? {
      var a := EncodeClarityValues(c, t.payload.args);
      ClarityValuesRead(c, t.payload.args, []);
      assert a + [] == a;
    }
  }

  /** Consequently no transaction's encoding is a prefix of another's. */
  lemma EncodingsAreSelfDelimiting<V(!new)>(c: Codec<V>, t: Transaction<V>, u: Transaction<V>, s: Bytes, r: Bytes)
    requires Faithful(c) && GoodTransaction(t) && GoodTransaction(u)
    requires EncodeTransaction(c, t) + s == EncodeTransaction(c, u) + r
    ensures t == u && s == r
  {
    TransactionRoundTrip(c, t, s);
    TransactionRoundTrip(c, u, r);
  }
}
