/** The reader object: a buffer and an offset that every read advances. Each method is proved
    against the reading function of module Wire on the bytes not yet read. */
module WireReader {
  import opened Tables
  import opened Wire

  /** What a call did, in the terms of a reading function: its result and the bytes left. */
  function Outcome<T>(r: Result<T, ReadError>, rest: Bytes): Read<T> {
    match r case Ok(v) => Got(v, rest) case Err(e) => Failed(e)
  }

  class BufferReader {
    const buffer: Bytes
    var readOffset: nat

    constructor (buffer: Bytes)
      ensures this.buffer == buffer && readOffset == 0
    {
      this.buffer := buffer;
      readOffset := 0;
    }

    ghost predicate Valid()
      reads this
    {
      readOffset <= |buffer|
    }

    function Rest(): Bytes
      reads this
      requires Valid()
    {
      buffer[readOffset..]
    }

    method ReadBuffer(n: nat) returns (r: Result<Bytes, ReadError>)
      requires Valid()
      modifies this
      ensures Valid() && readOffset >= old(readOffset)
      ensures Outcome(r, Rest()) == Wire.ReadBuffer(n, old(Rest()))
    {
      if readOffset + n > |buffer| {
        return Err(UnexpectedEnd);
      }
      r := Ok(buffer[readOffset..readOffset + n]);
      assert Rest()[..n] == buffer[readOffset..readOffset + n] && Rest()[n..] == buffer[readOffset + n..];
      readOffset := readOffset + n;
    }

    method ReadUInt8() returns (r: Result<Byte, ReadError>)
      requires Valid()
      modifies this
      ensures Valid() && readOffset >= old(readOffset)
      ensures Outcome(r, Rest()) == ReadByte(old(Rest()))
    {
      if readOffset == |buffer| {
        return Err(UnexpectedEnd);
      }
      r := Ok(buffer[readOffset]);
      readOffset := readOffset + 1;
    }

    method ReadUInt8Enum(field: string, members: set<Byte>) returns (r: Result<Byte, ReadError>)
      requires Valid()
      modifies this
      ensures Valid() && readOffset >= old(readOffset)
      ensures Outcome(r, Rest()) == ReadEnum(field, members, old(Rest()))
    {
      r := ReadUInt8();
      if r.Ok? && r.value !in members {
        r := Err(UnexpectedValue(field, r.value));
      }
    }

    /** readUInt16BE, readUInt32BE and readBigUInt64BE. */
    method ReadUIntBE(n: nat) returns (r: Result<nat, ReadError>)
      requires Valid()
      modifies this
      ensures Valid() && readOffset >= old(readOffset)
      ensures Outcome(r, Rest()) == ReadUInt(n, old(Rest()))
    {
      var b := ReadBuffer(n);
      if b.Err? {
        return Err(b.error);
      }
      r := Ok(UIntValue(b.value));
    }

    method ReadString(n: nat) returns (r: Result<seq<Ascii>, ReadError>)
      requires Valid()
      modifies this
      ensures Valid() && readOffset >= old(readOffset)
      ensures Outcome(r, Rest()) == Wire.ReadString(n, old(Rest()))
    {
      var len := ReadUIntBE(n);
      if len.Err? {
        return Err(len.error);
      }
      var b := ReadBuffer(len.value);
      if b.Err? {
        return Err(b.error);
      }
      r := Ok(AsciiOf(b.value));
    }

    method ReadStacksAddress() returns (r: Result<Address, ReadError>)
      requires Valid()
      modifies this
      ensures Valid() && readOffset >= old(readOffset)
      ensures Outcome(r, Rest()) == ReadAddress(old(Rest()))
    {
      var version := ReadUInt8();
      if version.Err? {
        return Err(version.error);
      }
      var bytes := ReadBuffer(20);
      if bytes.Err? {
        return Err(bytes.error);
      }
      r := Ok(Address(version.value, bytes.value));
    }

    /** `deserializeCV` on a slice of the rest, then the offset moved by what it took. */
    method ReadClarityValue<V>(c: Codec<V>) returns (r: Result<V, ReadError>)
      requires Valid()
      modifies this
      ensures Valid() && readOffset >= old(readOffset)
      ensures Outcome(r, Rest()) == c.Deserialize(old(Rest()))
    {
      match c.decode(buffer[readOffset..]) {
        case None => return Err(BadClarityValue);
        case Some((v, n)) =>
          if readOffset + n > |buffer| {
            return Err(UnexpectedEnd);
          }
          assert Rest()[n..] == buffer[readOffset + n..];
          readOffset := readOffset + n;
          r := Ok(v);
      }
    }

    /** The loop fills `values` one by one. */
    method ReadClarityValueArray<V>(c: Codec<V>) returns (r: Result<seq<V>, ReadError>)
      requires Valid()
      modifies this
      ensures Valid() && readOffset >= old(readOffset)
      ensures Outcome(r, Rest()) == ReadClarityValues(c, old(Rest()))
    {
      var count := ReadUIntBE(4);
      if count.Err? {
        return Err(count.error);
      }
      ghost var start := Rest();
      var values := [];
      ContinueFromNone(ReadItems(count.value, c.Deserialize, start));
      for i := 0 to count.value
        invariant Valid() && readOffset >= old(readOffset)
        invariant |values| == i
        invariant ReadItems(count.value, c.Deserialize, start) ==
                  Continue(values, ReadItems(count.value - i, c.Deserialize, Rest()))
      {
        hide Codec.Deserialize;
        ItemsUnfold(count.value - i, c.Deserialize, Rest(), values);
        var v := ReadClarityValue(c);
        if v.Err? {
          return Err(v.error);
        }
        values := values + [v.value];
      }
      assert values + [] == values;
      r := Ok(values);
    }

    method ReadAssetInfo() returns (r: Result<AssetInfo, ReadError>)
      requires Valid()
      modifies this
      ensures Valid() && readOffset >= old(readOffset)
      ensures Outcome(r, Rest()) == Wire.ReadAssetInfo(old(Rest()))
    {
      hide ReadAddress, Wire.ReadString;
      var address := ReadStacksAddress();
      if address.Err? {
        return Err(address.error);
      }
      var contractName := ReadString(1);
      if contractName.Err? {
        return Err(contractName.error);
      }
      var assetName := ReadString(1);
      if assetName.Err? {
        return Err(assetName.error);
      }
      r := Ok(AssetInfo(address.value, contractName.value, assetName.value));
    }

    method ReadPostConditionPrincipal() returns (r: Result<Principal, ReadError>)
      requires Valid()
      modifies this
      ensures Valid() && readOffset >= old(readOffset)
      ensures Outcome(r, Rest()) == ReadPrincipal(old(Rest()))
    {
      hide ReadAddress, Wire.ReadString;
      var typeId := ReadUInt8Enum("post condition principal type", {1, 2, 3});
      if typeId.Err? {
        return Err(typeId.error);
      }
      if typeId.value == 1 {
        return Ok(Origin);
      }
      var address := ReadStacksAddress();
      if address.Err? {
        return Err(address.error);
      }
      if typeId.value == 2 {
        return Ok(StandardPrincipal(address.value));
      }
      var name := ReadString(1);
      if name.Err? {
        return Err(name.error);
      }
      r := Ok(ContractPrincipal(address.value, name.value));
    }

    method ReadTransactionPostCondition<V>(c: Codec<V>) returns (r: Result<PostCondition<V>, ReadError>)
      requires Valid()
      modifies this
      ensures Valid() && readOffset >= old(readOffset)
      ensures Outcome(r, Rest()) == ReadPostCondition(c, old(Rest()))
    {
      hide ReadPrincipal, Wire.ReadAssetInfo, ReadUInt, ReadEnum, Codec.Deserialize;
      var typeId := ReadUInt8Enum("asset info type", {0, 1, 2});
      if typeId.Err? {
        return Err(typeId.error);
      }
      EnumMember("asset info type", {0, 1, 2}, old(Rest()));
      var principal := ReadPostConditionPrincipal();
      if principal.Err? {
        return Err(principal.error);
      }
      if typeId.value == 0 {
        var code := ReadUInt8Enum("condition code", {1, 2, 3, 4, 5});
        if code.Err? {
          return Err(code.error);
        }
        var amount := ReadUIntBE(8);
        if amount.Err? {
          return Err(amount.error);
        }
        return Ok(StxCondition(principal.value, code.value, amount.value));
      }
      var asset := ReadAssetInfo();
      if asset.Err? {
        return Err(asset.error);
      }
      if typeId.value == 1 {
        var code := ReadUInt8Enum("condition code", {1, 2, 3, 4, 5});
        if code.Err? {
          return Err(code.error);
        }
        var amount := ReadUIntBE(8);
        if amount.Err? {
          return Err(amount.error);
        }
        return Ok(FungibleCondition(principal.value, asset.value, code.value, amount.value));
      }
      var value := ReadClarityValue(c);
      if value.Err? {
        return Err(value.error);
      }
      var code := ReadUInt8Enum("nonfungible condition code", {0x10, 0x11});
      if code.Err? {
        return Err(code.error);
      }
      r := Ok(NonfungibleCondition(principal.value, asset.value, value.value, code.value));
    }

    method ReadTransactionPostConditions<V>(c: Codec<V>) returns (r: Result<seq<PostCondition<V>>, ReadError>)
      requires Valid()
      modifies this
      ensures Valid() && readOffset >= old(readOffset)
      ensures Outcome(r, Rest()) == ReadPostConditions(c, old(Rest()))
    {
      var count := ReadUIntBE(4);
      if count.Err? {
        return Err(count.error);
      }
      ghost var start := Rest();
      var conditions := [];
      ContinueFromNone(ReadItems(count.value, PostConditionReader(c), start));
      for i := 0 to count.value
        invariant Valid() && readOffset >= old(readOffset)
        invariant |conditions| == i
        invariant ReadItems(count.value, PostConditionReader(c), start) ==
                  Continue(conditions, ReadItems(count.value - i, PostConditionReader(c), Rest()))
      {
        hide ReadPostCondition;
        ItemsUnfold(count.value - i, PostConditionReader(c), Rest(), conditions);
        var p := ReadTransactionPostCondition(c);
        if p.Err? {
          return Err(p.error);
        }
        conditions := conditions + [p.value];
      }
      assert conditions + [] == conditions;
      r := Ok(conditions);
    }

    method ReadTransactionAuthField() returns (r: Result<AuthField, ReadError>)
      requires Valid()
      modifies this
      ensures Valid() && readOffset >= old(readOffset)
      ensures Outcome(r, Rest()) == ReadAuthField(old(Rest()))
    {
      hide Wire.ReadBuffer;
      var authType := ReadUInt8Enum("auth field type", {0, 1, 2, 3});
      if authType.Err? {
        return Err(authType.error);
      }
      if authType.value <= 1 {
        var publicKey := ReadBuffer(33);
        if publicKey.Err? {
          return Err(publicKey.error);
        }
        return Ok(PublicKey(authType.value == 1, publicKey.value));
      }
      var signature := ReadBuffer(65);
      if signature.Err? {
        return Err(signature.error);
      }
      r := Ok(Signature(authType.value == 3, signature.value));
    }

    method ReadAuthFields() returns (r: Result<seq<AuthField>, ReadError>)
      requires Valid()
      modifies this
      ensures Valid() && readOffset >= old(readOffset)
      ensures Outcome(r, Rest()) == ReadList(ReadAuthField, old(Rest()))
    {
      var count := ReadUIntBE(4);
      if count.Err? {
        return Err(count.error);
      }
      ghost var start := Rest();
      var authFields := [];
      ContinueFromNone(ReadItems(count.value, ReadAuthField, start));
      for i := 0 to count.value
        invariant Valid() && readOffset >= old(readOffset)
        invariant |authFields| == i
        invariant ReadItems(count.value, ReadAuthField, start) ==
                  Continue(authFields, ReadItems(count.value - i, ReadAuthField, Rest()))
      {
        hide ReadAuthField;
        ItemsUnfold(count.value - i, ReadAuthField, Rest(), authFields);
        var f := ReadTransactionAuthField();
        if f.Err? {
          return Err(f.error);
        }
        authFields := authFields + [f.value];
      }
      assert authFields + [] == authFields;
      r := Ok(authFields);
    }

    method ReadTransactionSpendingCondition() returns (r: Result<SpendingCondition, ReadError>)
      requires Valid()
      modifies this
      ensures Valid() && readOffset >= old(readOffset)
      ensures Outcome(r, Rest()) == ReadSpendingCondition(old(Rest()))
    {
      hide ReadList, ReadUInt, Wire.ReadBuffer, ReadByte, ReadEnum;
      var mode := ReadUInt8Enum("spend condition hash mode", {0, 1, 2, 3});
      if mode.Err? {
        return Err(mode.error);
      }
      var signer := ReadBuffer(20);
      if signer.Err? {
        return Err(signer.error);
      }
      var nonce := ReadUIntBE(8);
      if nonce.Err? {
        return Err(nonce.error);
      }
      var feeRate := ReadUIntBE(8);
      if feeRate.Err? {
        return Err(feeRate.error);
      }
      if mode.value % 2 == 0 {
        var keyEncoding := ReadUInt8();
        if keyEncoding.Err? {
          return Err(keyEncoding.error);
        }
        var signature := ReadBuffer(65);
        if signature.Err? {
          return Err(signature.error);
        }
        return Ok(SingleSig(mode.value == 2, signer.value, nonce.value, feeRate.value, keyEncoding.value, signature.value));
      }
      var fields := ReadAuthFields();
      if fields.Err? {
        return Err(fields.error);
      }
      var count := ReadUIntBE(2);
      if count.Err? {
        return Err(count.error);
      }
      r := Ok(MultiSig(mode.value == 3, signer.value, nonce.value, feeRate.value, fields.value, count.value));
    }

    method ReadTransactionAuth() returns (r: Result<Auth, ReadError>)
      requires Valid()
      modifies this
      ensures Valid() && readOffset >= old(readOffset)
      ensures Outcome(r, Rest()) == ReadAuth(old(Rest()))
    {
      hide ReadSpendingCondition, ReadEnum;
      var authType := ReadUInt8Enum("auth type", {4, 5});
      if authType.Err? {
        return Err(authType.error);
      }
      var origin := ReadTransactionSpendingCondition();
      if origin.Err? {
        return Err(origin.error);
      }
      if authType.value == 4 {
        return Ok(Standard(origin.value));
      }
      var sponsor := ReadTransactionSpendingCondition();
      if sponsor.Err? {
        return Err(sponsor.error);
      }
      r := Ok(Sponsored(origin.value, sponsor.value));
    }

    method ReadTokenRecipient() returns (r: Result<Principal, ReadError>)
      requires Valid()
      modifies this
      ensures Valid() && readOffset >= old(readOffset)
      ensures Outcome(r, Rest()) == ReadRecipient(old(Rest()))
    {
      hide ReadAddress, Wire.ReadString;
      var typeId := ReadUInt8();
      if typeId.Err? {
        return Err(typeId.error);
      }
      if typeId.value == 5 {
        var address := ReadStacksAddress();
        if address.Err? {
          return Err(address.error);
        }
        return Ok(StandardPrincipal(address.value));
      }
      if typeId.value != 6 {
        return Err(UnexpectedValue("recipient principal type", typeId.value));
      }
      var address := ReadStacksAddress();
      if address.Err? {
        return Err(address.error);
      }
      var name := ReadString(1);
      if name.Err? {
        return Err(name.error);
      }
      r := Ok(ContractPrincipal(address.value, name.value));
    }

    /** The raw argument bytes are a copy of the buffer from before the arguments to after. */
    method ReadContractCallPayload<V>(c: Codec<V>) returns (r: Result<ReadCall<V>, ReadError>)
      requires Valid()
      modifies this
      ensures Valid() && readOffset >= old(readOffset)
      ensures Outcome(r, Rest()) == ReadContractCall(c, old(Rest()))
    {
      hide ReadAddress, Wire.ReadString, ReadClarityValues;
      var address := ReadStacksAddress();
      if address.Err? {
        return Err(address.error);
      }
      var contractName := ReadString(1);
      if contractName.Err? {
        return Err(contractName.error);
      }
      var functionName := ReadString(1);
      if functionName.Err? {
        return Err(functionName.error);
      }
      var start := readOffset;
      var args := ReadClarityValueArray(c);
      if args.Err? {
        return Err(args.error);
      }
      var raw := None;
      if |args.value| > 0 {
        raw := Some(buffer[start..readOffset]);
      }
      assert buffer[start..][..readOffset - start] == buffer[start..readOffset];
      r := Ok(ReadCall(ContractCall(address.value, contractName.value, functionName.value, args.value), raw));
    }

    method ReadTransactionPayload<V>(c: Codec<V>) returns (r: Result<ReadCall<V>, ReadError>)
      requires Valid()
      modifies this
      ensures Valid() && readOffset >= old(readOffset)
      ensures Outcome(r, Rest()) == ReadPayload(c, old(Rest()))
    {
      hide ReadRecipient, Wire.ReadString, ReadUInt, Wire.ReadBuffer, ReadContractCall, ReadEnum;
      var typeId := ReadUInt8Enum("payload type", {0, 1, 2, 3, 4});
      if typeId.Err? {
        return Err(typeId.error);
      }
      if typeId.value == 4 {
        var data := ReadBuffer(32);
        if data.Err? {
          return Err(data.error);
        }
        return Ok(ReadCall(Coinbase(data.value), None));
      } else if typeId.value == 0 {
        var recipient := ReadTokenRecipient();
        if recipient.Err? {
          return Err(recipient.error);
        }
        var amount := ReadUIntBE(8);
        if amount.Err? {
          return Err(amount.error);
        }
        var memo := ReadBuffer(34);
        if memo.Err? {
          return Err(memo.error);
        }
        return Ok(ReadCall(TokenTransfer(recipient.value, amount.value, memo.value), None));
      } else if typeId.value == 1 {
        var name := ReadString(1);
        if name.Err? {
          return Err(name.error);
        }
        var codeBody := ReadString(4);
        if codeBody.Err? {
          return Err(codeBody.error);
        }
        return Ok(ReadCall(SmartContract(name.value, codeBody.value), None));
      } else if typeId.value == 2 {
        r := ReadContractCallPayload(c);
      } else {
        var header1 := ReadBuffer(MICROBLOCK_HEADER_SIZE);
        if header1.Err? {
          return Err(header1.error);
        }
        var header2 := ReadBuffer(MICROBLOCK_HEADER_SIZE);
        if header2.Err? {
          return Err(header2.error);
        }
        return Ok(ReadCall(PoisonMicroblock(header1.value, header2.value), None));
      }
    }

    /** The mode and the list, with the bytes between the two offsets. */
    method ReadConditions<V>(c: Codec<V>) returns (r: Result<Conditions<V>, ReadError>)
      requires Valid()
      modifies this
      ensures Valid() && readOffset >= old(readOffset)
      ensures Outcome(r, Rest()) == Wire.ReadConditions(c, old(Rest()))
    {
      hide ReadEnum, ReadPostConditions;
      var start := readOffset;
      var mode := ReadUInt8Enum("post condition mode", {1, 2});
      if mode.Err? {
        return Err(mode.error);
      }
      var conditions := ReadTransactionPostConditions(c);
      if conditions.Err? {
        return Err(conditions.error);
      }
      var raw := buffer[start..readOffset];
      assert buffer[start..][..readOffset - start] == raw;
      r := Ok(Conditions(mode.value, conditions.value, raw));
    }

    method ReadTransaction<V>(c: Codec<V>) returns (r: Result<ReadTx<V>, ReadError>)
      requires Valid()
      modifies this
      ensures Valid() && readOffset >= old(readOffset)
      ensures Outcome(r, Rest()) == Wire.ReadTransaction(c, old(Rest()))
    {
      hide ReadEnum, ReadUInt, ReadAuth, Wire.ReadConditions, ReadPayload;
      var version := ReadUInt8Enum("version", {0x00, 0x80});
      if version.Err? {
        return Err(version.error);
      }
      var chainId := ReadUIntBE(4);
      if chainId.Err? {
        return Err(chainId.error);
      }
      var auth := ReadTransactionAuth();
      if auth.Err? {
        return Err(auth.error);
      }
      var anchorMode := ReadUInt8Enum("anchor mode", {1, 2, 3});
      if anchorMode.Err? {
        return Err(anchorMode.error);
      }
      var pc := ReadConditions(c);
      if pc.Err? {
        return Err(pc.error);
      }
      var call := ReadTransactionPayload(c);
      if call.Err? {
        return Err(call.error);
      }
      r := Ok(ReadTx(Transaction(version.value == 0, chainId.value, auth.value, anchorMode.value, pc.value.mode,
                                 pc.value.conditions, call.value.payload), pc.value.raw, call.value.rawFunctionArgs));
    }
  }

  /** The reader, started on the encoding of a transaction with anything after it, returns the
      transaction and stops where it ends. */
  method ReadBack<V(!new)>(c: Codec<V>, t: Transaction<V>, suffix: Bytes) returns (r: Result<ReadTx<V>, ReadError>, left: Bytes)
    requires Faithful(c) && GoodTransaction(t)
    ensures r.Ok? && r.value.tx == t && left == suffix
  {
    hide EncodeTransaction, Wire.ReadTransaction, Faithful, GoodPayload;
    TransactionRoundTrip(c, t, suffix);
    var reader := new BufferReader(EncodeTransaction(c, t) + suffix);
    r := reader.ReadTransaction(c);
    left := reader.Rest();
  }

  lemma ContinueFromNone<T>(r: Read<seq<T>>)
    ensures Continue([], r) == r
  {
    if r.Got? {
      assert [] + r.value == r.value;
    }
  }

  /** Elements read so far, put before the rest of a list. */
  function Continue<T>(xs: seq<T>, r: Read<seq<T>>): Read<seq<T>> {
    match r case Got(ys, rest) => Got(xs + ys, rest) case Failed(e) => Failed(e)
  }

  /** One turn of a loop that reads a list. */
  lemma ItemsUnfold<T>(n: nat, item: Bytes -> Read<T>, bs: Bytes, xs: seq<T>)
    requires n > 0
    ensures match item(bs)
            case Got(x, rest) => Continue(xs, ReadItems(n, item, bs)) == Continue(xs + [x], ReadItems(n - 1, item, rest))
            case Failed(e) => ReadItems(n, item, bs) == Failed(e)
  {
    if item(bs).Got? {
      var r := ReadItems(n - 1, item, item(bs).rest);
      if r.Got? {
        assert xs + ([item(bs).value] + r.value) == xs + [item(bs).value] + r.value;
      }
    }
  }

  lemma EnumMember(field: string, members: set<Byte>, bs: Bytes)
    ensures ReadEnum(field, members, bs).Got? ==> ReadEnum(field, members, bs).value in members
  {
  }
}
