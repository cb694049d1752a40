/** Encoding, hashing and signing of account transactions
    (src/nile/signer.py). The StarkWare primitives the module calls (entry
    point selectors, Pedersen hashing, the transaction hash, key derivation and
    ECDSA signing) are passed in as a `Primitives` record of total functions:
    the model states exactly what they are applied to and assumes nothing
    about what they compute. */
module Signing {
  import opened Wrappers
  import opened Digits
  import opened PyInt

  /** `TRANSACTION_VERSION` (signer.py:9). */
  const TRANSACTION_VERSION: int := 0

  /** The domain tag hashed first by `hash_multicall`. */
  const TRANSACTION_TAG: string := "StarkNet Transaction"

  /** `TransactionHashPrefix.INVOKE`; its numeric value belongs to the StarkWare library. */
  datatype HashPrefix = Invoke

  /** `StarknetChainId.TESTNET`; its numeric value belongs to the StarkWare library. */
  datatype ChainId = Testnet

  /** The arguments handed to `calculate_transaction_hash_common`, in its order. */
  datatype TxHashInput = TxHashInput(
    prefix: HashPrefix,
    version: int,
    contractAddress: int,
    entryPointSelector: int,
    calldata: seq<int>,
    maxFee: int,
    chainId: ChainId,
    additionalData: seq<int>)

  /** The StarkWare primitives: `get_selector_from_name`,
      `compute_hash_on_elements`, `calculate_transaction_hash_common`,
      `private_to_stark_key` and `sign`. */
  datatype Primitives = Primitives(
    selectorFromName: string -> int,
    hashOnElements: seq<int> -> int,
    transactionHash: TxHashInput -> int,
    privateToStarkKey: int -> int,
    sign: (int, int) -> (int, int))

  /** One component of a call tuple, as the Python code receives it: a string,
      an integer or a list of integers. */
  datatype Component = Text(text: string) | Felt(felt: int) | Felts(felts: seq<int>)

  /** A call as passed in: a tuple of components, normally `(to, selector_name, args)`. */
  type RawCall = seq<Component>

  /** A call whose three components have been read. */
  datatype Call = Call(to: int, selectorName: string, args: seq<int>)

  /** One call array entry `(to, selector, data_offset, data_len)`. */
  datatype Entry = Entry(to: int, selector: int, dataOffset: nat, dataLen: nat)

  /** The result of `from_call_to_call_array`. */
  datatype Encoding = Encoding(callArray: seq<Entry>, calldata: seq<int>)

  /** Why one call could not be read: the arity assertion failed, the target
      is not a base-16 integer string, or another component has the wrong type. */
  datatype CallFault = WrongArity | BadTarget | BadComponent

  /** The exception that aborts encoding: the index of the first unreadable
      call and why, or a sender that is not a base-16 integer string. */
  datatype EncodeError = CallError(at: nat, fault: CallFault) | BadSender

  /** `int(component, 16)`: only a string of hexadecimal form converts. */
  function TargetOf(c: Component): Option<int>
  {
    if c.Text? then ParseHex(c.text) else None
  }

  /** How `from_call_to_call_array` reads one call (signer.py:44-49): the
      arity check first, then the target, then the selector name and the
      argument list. */
  function ReadCall(c: RawCall): Result<Call, CallFault>
  {
    if |c| != 3 then Err(WrongArity)
    else match TargetOf(c[0])
      case None => Err(BadTarget)
      case Some(to) =>
        if !c[1].Text? || !c[2].Felts? then Err(BadComponent)
        else Ok(Call(to, c[1].text, c[2].felts))
  }

  /** Entry `e` describes call `c` within `calldata`: same target, the selector
      of its name, and a slice of `calldata` that is exactly its arguments. */
  predicate Describes(e: Entry, c: Call, selector: string -> int, calldata: seq<int>)
  {
    e.to == c.to && e.selector == selector(c.selectorName) && e.dataLen == |c.args|
    && e.dataOffset + e.dataLen <= |calldata|
    && calldata[e.dataOffset..e.dataOffset + e.dataLen] == c.args
  }

  /** The slices of a call array tile the calldata: the first starts at 0, each
      starts where the previous ends, and the last ends at the end. */
  predicate Contiguous(callArray: seq<Entry>, calldata: seq<int>)
  {
    (|callArray| == 0 ==> calldata == [])
    && (|callArray| > 0 ==>
          callArray[0].dataOffset == 0
          && callArray[|callArray| - 1].dataOffset + callArray[|callArray| - 1].dataLen == |calldata|)
    && forall i :: 0 < i < |callArray| ==>
         callArray[i].dataOffset == callArray[i - 1].dataOffset + callArray[i - 1].dataLen
  }

  /** What `from_call_to_call_array` computes: calls are read in order, the
      first unreadable one aborts, and each readable one appends its entry and
      its arguments. */
  function EncodeCalls(calls: seq<RawCall>, selector: string -> int): (r: Result<Encoding, EncodeError>)
    ensures r.Ok? ==> |r.value.callArray| == |calls|
    ensures r.Err? ==> r.error.CallError? && r.error.at < |calls|
    decreases |calls|
  {
    if calls == [] then Ok(Encoding([], []))
    else
      match EncodeCalls(calls[..|calls| - 1], selector)
      case Err(e) => Err(e)
      case Ok(enc) =>
        match ReadCall(calls[|calls| - 1])
        case Err(fault) => Err(CallError(|calls| - 1, fault))
        case Ok(c) =>
          Ok(Encoding(enc.callArray + [Entry(c.to, selector(c.selectorName), |enc.calldata|, |c.args|)],
                      enc.calldata + c.args))
  }

  /** A failed encoding names the first unreadable call and its fault. */
  lemma {:induction false} EncodeCallsFirstError(calls: seq<RawCall>, selector: string -> int)
    ensures var r := EncodeCalls(calls, selector);
            r.Err? ==>
              r.error.CallError? && r.error.at < |calls|
              && ReadCall(calls[r.error.at]) == Err(r.error.fault)
              && forall j :: 0 <= j < r.error.at ==> ReadCall(calls[j]).Ok?
    decreases |calls|
  {
    if calls != [] {
      var init := calls[..|calls| - 1];
      if EncodeCalls(init, selector).Ok? {
        forall j | 0 <= j < |init|
          ensures ReadCall(calls[j]).Ok?
        {
          EncodeCallsRoundTrip(init, selector, j);
          assert init[j] == calls[j];
        }
      } else {
        EncodeCallsFirstError(init, selector);
        var at := EncodeCalls(init, selector).error.at;
        assert init[at] == calls[at];
        forall j | 0 <= j < at
          ensures ReadCall(calls[j]).Ok?
        {
          assert init[j] == calls[j];
        }
      }
    }
  }

  /** An error at call `i` after a readable prefix is the encoding's error. */
  lemma {:induction false} EncodeCallsStopsAt(calls: seq<RawCall>, i: nat, selector: string -> int, fault: CallFault)
    requires i < |calls| && EncodeCalls(calls[..i], selector).Ok? && ReadCall(calls[i]) == Err(fault)
    ensures EncodeCalls(calls, selector) == Err(CallError(i, fault))
    decreases |calls|
  {
    var init := calls[..|calls| - 1];
    if i < |calls| - 1 {
      assert init[..i] == calls[..i] && init[i] == calls[i];
      EncodeCallsStopsAt(init, i, selector, fault);
    } else {
      assert init == calls[..i];
    }
  }

  /** Appending to the calldata keeps every existing slice where it was. */
  lemma DescribesExtended(e: Entry, c: Call, selector: string -> int, calldata: seq<int>, more: seq<int>)
    requires Describes(e, c, selector, calldata)
    ensures Describes(e, c, selector, calldata + more)
  {
    assert (calldata + more)[e.dataOffset..e.dataOffset + e.dataLen]
        == calldata[e.dataOffset..e.dataOffset + e.dataLen];
  }

  /** The shape of a successful encoding: one entry per call, and slices that
      tile the calldata (the first at offset 0, each where the previous ends,
      the last at the end). */
  lemma {:induction false} EncodeCallsTiling(calls: seq<RawCall>, selector: string -> int)
    requires EncodeCalls(calls, selector).Ok?
    ensures |EncodeCalls(calls, selector).value.callArray| == |calls|
    ensures Contiguous(EncodeCalls(calls, selector).value.callArray, EncodeCalls(calls, selector).value.calldata)
    decreases |calls|
  {
    if calls != [] {
      EncodeCallsTiling(calls[..|calls| - 1], selector);
    }
  }

  /** A successful encoding is the encoding of all calls but the last, extended
      by the last call's entry and arguments. */
  lemma EncodeCallsSnoc(calls: seq<RawCall>, selector: string -> int)
    requires calls != [] && EncodeCalls(calls, selector).Ok?
    ensures var init, last := calls[..|calls| - 1], calls[|calls| - 1];
            EncodeCalls(init, selector).Ok? && ReadCall(last).Ok?
            && var enc, c := EncodeCalls(init, selector).value, ReadCall(last).value;
               EncodeCalls(calls, selector).value
               == Encoding(enc.callArray + [Entry(c.to, selector(c.selectorName), |enc.calldata|, |c.args|)],
                           enc.calldata + c.args)
  {
  }

  /** Round trip of the encoding: entry `i` holds call `i`'s target, the
      selector of its name, and the offset and length of a calldata slice that
      is exactly call `i`'s argument list. */
  lemma {:induction false} EncodeCallsRoundTrip(calls: seq<RawCall>, selector: string -> int, i: nat)
    requires EncodeCalls(calls, selector).Ok? && i < |calls|
    ensures ReadCall(calls[i]).Ok?
    ensures i < |EncodeCalls(calls, selector).value.callArray|
    ensures Describes(EncodeCalls(calls, selector).value.callArray[i], ReadCall(calls[i]).value,
                      selector, EncodeCalls(calls, selector).value.calldata)
    decreases |calls|
  {
    var init, last := calls[..|calls| - 1], calls[|calls| - 1];
    EncodeCallsSnoc(calls, selector);
    var enc, c := EncodeCalls(init, selector).value, ReadCall(last).value;
    if i < |init| {
      EncodeCallsRoundTrip(init, selector, i);
      assert init[i] == calls[i];
    }
    DescribesSnoc(enc, c, selector, i, ReadCall(calls[i]).value);
  }

  /** Entry `i` of an encoding extended by call `c` describes the call it
      described before, or `c` itself when it is the new entry. */
  lemma DescribesSnoc(enc: Encoding, c: Call, selector: string -> int, i: nat, ci: Call)
    requires i <= |enc.callArray|
    requires i < |enc.callArray| ==> Describes(enc.callArray[i], ci, selector, enc.calldata)
    requires i == |enc.callArray| ==> ci == c
    ensures var callArray := enc.callArray + [Entry(c.to, selector(c.selectorName), |enc.calldata|, |c.args|)];
            Describes(callArray[i], ci, selector, enc.calldata + c.args)
  {
    if i < |enc.callArray| {
      DescribesExtended(enc.callArray[i], ci, selector, enc.calldata, c.args);
    } else {
      assert (enc.calldata + c.args)[|enc.calldata|..|enc.calldata| + |c.args|] == c.args;
    }
  }

  /** `from_call_to_call_array` (signer.py:39-53): one entry per call, in
      order, each recording the running calldata offset and its argument count,
      while the arguments are appended to one flat calldata list. */
  method FromCallToCallArray(calls: seq<RawCall>, selector: string -> int)
    returns (r: Result<Encoding, EncodeError>)
    ensures r == EncodeCalls(calls, selector)
  {
    var callArray: seq<Entry> := [];
    var calldata: seq<int> := [];
    for i := 0 to |calls|
      invariant EncodeCalls(calls[..i], selector) == Ok(Encoding(callArray, calldata))
    {
      var call := calls[i];
      assert calls[..i + 1][..i] == calls[..i] && calls[..i + 1][i] == call;
      if |call| != 3 {
        EncodeCallsStopsAt(calls, i, selector, WrongArity);
        return Err(CallError(i, WrongArity));
      }
      var to := TargetOf(call[0]);
      if to.None? {
        EncodeCallsStopsAt(calls, i, selector, BadTarget);
        return Err(CallError(i, BadTarget));
      }
      if !call[1].Text? || !call[2].Felts? {
        EncodeCallsStopsAt(calls, i, selector, BadComponent);
        return Err(CallError(i, BadComponent));
      }
      callArray := callArray + [Entry(to.value, selector(call[1].text), |calldata|, |call[2].felts|)];
      calldata := calldata + call[2].felts;
    }
    assert calls[..|calls|] == calls;
    return Ok(Encoding(callArray, calldata));
  }

  /** The concatenation of a list of argument lists. */
  function Concat(xss: seq<seq<int>>): seq<int>
  {
    if xss == [] then [] else Concat(xss[..|xss| - 1]) + xss[|xss| - 1]
  }

  /** The argument list of a call; an unreadable call has none. */
  function ArgsOf(c: RawCall): seq<int>
  {
    match ReadCall(c)
    case Ok(call) => call.args
    case Err(_) => []
  }

  /** The argument lists of the calls, in call order. */
  function Arguments(calls: seq<RawCall>): (argss: seq<seq<int>>)
    ensures |argss| == |calls|
  {
    seq(|calls|, i requires 0 <= i < |calls| => ArgsOf(calls[i]))
  }

  /** The argument lists of all calls are those of all but the last, then the last's. */
  lemma ConcatArgumentsSnoc(calls: seq<RawCall>)
    requires calls != []
    ensures Concat(Arguments(calls)) == Concat(Arguments(calls[..|calls| - 1])) + ArgsOf(calls[|calls| - 1])
  {
    var init, argss := calls[..|calls| - 1], Arguments(calls);
    assert argss[..|init|] == Arguments(init);
  }

  /** The calldata of a successful encoding is every call's argument list
      concatenated, in call order. */
  lemma {:induction false} EncodeCallsCalldata(calls: seq<RawCall>, selector: string -> int)
    requires EncodeCalls(calls, selector).Ok?
    ensures EncodeCalls(calls, selector).value.calldata == Concat(Arguments(calls))
    decreases |calls|
  {
    if calls != [] {
      EncodeCallsSnoc(calls, selector);
      EncodeCallsCalldata(calls[..|calls| - 1], selector);
      ConcatArgumentsSnoc(calls);
    }
  }

  // ---- The execute calldata and the invoke transaction hash ----

  /** The four fields of a call array entry, in tuple order. */
  function EntryFields(e: Entry): seq<int>
  {
    [e.to, e.selector, e.dataOffset, e.dataLen]
  }

  /** `[x for t in call_array for x in t]`. */
  function FlattenEntries(callArray: seq<Entry>): (r: seq<int>)
    ensures |r| == 4 * |callArray|
  {
    if callArray == [] then [] else EntryFields(callArray[0]) + FlattenEntries(callArray[1..])
  }

  /** `execute_calldata` as `get_transaction_hash` lays it out (signer.py:75-80). */
  function ExecuteCalldata(callArray: seq<Entry>, calldata: seq<int>, nonce: int): (r: seq<int>)
    ensures |r| == 4 * |callArray| + |calldata| + 3
  {
    [|callArray|] + FlattenEntries(callArray) + [|calldata|] + calldata + [nonce]
  }

  /** Reads a flattened call array back, four fields per entry. */
  function DecodeEntries(xs: seq<int>): Option<seq<Entry>>
    requires |xs| % 4 == 0
    decreases |xs|
  {
    if xs == [] then Some([])
    else if xs[2] < 0 || xs[3] < 0 then None
    else
      match DecodeEntries(xs[4..])
      case None => None
      case Some(rest) => Some([Entry(xs[0], xs[1], xs[2], xs[3])] + rest)
  }

  /** Reads an execute calldata list back into call array, calldata and nonce;
      `None` for a list not of that layout. */
  function DecodeExecuteCalldata(xs: seq<int>): Option<(seq<Entry>, seq<int>, int)>
  {
    if |xs| < 3 || xs[0] < 0 || |xs| < 4 * xs[0] + 3 then None
    else
      var n := xs[0];
      var m := xs[4 * n + 1];
      if m < 0 || |xs| != 4 * n + m + 3 then None
      else
        match DecodeEntries(xs[1..4 * n + 1])
        case None => None
        case Some(callArray) => Some((callArray, xs[4 * n + 2..|xs| - 1], xs[|xs| - 1]))
  }

  lemma {:induction false} DecodeFlattenEntries(callArray: seq<Entry>)
    ensures DecodeEntries(FlattenEntries(callArray)) == Some(callArray)
  {
    if callArray != [] {
      var xs := FlattenEntries(callArray);
      var e := callArray[0];
      assert xs[..4] == EntryFields(e);
      assert xs[4..] == FlattenEntries(callArray[1..]);
      DecodeFlattenEntries(callArray[1..]);
      assert Entry(xs[0], xs[1], xs[2], xs[3]) == e;
      assert callArray == [e] + callArray[1..];
    }
  }

  /** The execute calldata layout loses nothing: the call array, the calldata
      and the nonce can all be read back from it. */
  lemma DecodeExecuteCalldataRoundTrip(callArray: seq<Entry>, calldata: seq<int>, nonce: int)
    ensures DecodeExecuteCalldata(ExecuteCalldata(callArray, calldata, nonce)) == Some((callArray, calldata, nonce))
  {
    var xs := ExecuteCalldata(callArray, calldata, nonce);
    var n := |callArray|;
    assert xs[0] == n;
    assert xs[1..4 * n + 1] == FlattenEntries(callArray);
    assert xs[4 * n + 1] == |calldata|;
    assert xs[4 * n + 2..|xs| - 1] == calldata;
    DecodeFlattenEntries(callArray);
  }

  /** The arguments `get_transaction_hash` hands to the transaction hash (signer.py:82-91). */
  function TransactionHashInput(crypto: Primitives, account: int, callArray: seq<Entry>, calldata: seq<int>,
                                nonce: int, maxFee: int): (input: TxHashInput)
    ensures input.prefix == Invoke && input.version == TRANSACTION_VERSION && input.chainId == Testnet
    ensures input.contractAddress == account && input.entryPointSelector == crypto.selectorFromName("__execute__")
    ensures input.maxFee == maxFee && input.additionalData == []
    ensures DecodeExecuteCalldata(input.calldata) == Some((callArray, calldata, nonce))
  {
    DecodeExecuteCalldataRoundTrip(callArray, calldata, nonce);
    TxHashInput(Invoke, TRANSACTION_VERSION, account, crypto.selectorFromName("__execute__"),
                ExecuteCalldata(callArray, calldata, nonce), maxFee, Testnet, [])
  }

  /** `get_transaction_hash` (signer.py:74-91). */
  function GetTransactionHash(crypto: Primitives, account: int, callArray: seq<Entry>, calldata: seq<int>,
                              nonce: int, maxFee: int): (h: int)
    ensures h == crypto.transactionHash(TransactionHashInput(crypto, account, callArray, calldata, nonce, maxFee))
  {
    crypto.transactionHash(TransactionHashInput(crypto, account, callArray, calldata, nonce, maxFee))
  }

  /** Two transactions hand the transaction hash the same input only when
      account, call array (so call order), calldata, nonce and fee all agree:
      any collision must come from the hash primitive itself. */
  lemma TransactionHashInputInjective(crypto: Primitives, account1: int, callArray1: seq<Entry>,
                                      calldata1: seq<int>, nonce1: int, maxFee1: int,
                                      account2: int, callArray2: seq<Entry>,
                                      calldata2: seq<int>, nonce2: int, maxFee2: int)
    requires TransactionHashInput(crypto, account1, callArray1, calldata1, nonce1, maxFee1)
          == TransactionHashInput(crypto, account2, callArray2, calldata2, nonce2, maxFee2)
    ensures account1 == account2 && callArray1 == callArray2 && calldata1 == calldata2
    ensures nonce1 == nonce2 && maxFee1 == maxFee2
  {
    DecodeExecuteCalldataRoundTrip(callArray1, calldata1, nonce1);
    DecodeExecuteCalldataRoundTrip(callArray2, calldata2, nonce2);
  }

  // ---- str_to_felt ----

  predicate IsAscii(s: string)
  {
    forall i :: 0 <= i < |s| ==> s[i] as int < 128
  }

  /** `bytes(text, "ascii")`. */
  function AsciiBytes(s: string): (bs: seq<nat>)
    requires IsAscii(s)
    ensures |bs| == |s| && AreDigits(bs, 256)
  {
    seq(|s|, i requires 0 <= i < |s| => s[i] as int)
  }

  /** `int.from_bytes(bytes(text, "ascii"), "big")` for an ASCII text. */
  function AsciiValue(s: string): nat
    requires IsAscii(s)
  {
    FromDigits(AsciiBytes(s), 256)
  }

  /** `str_to_felt` (signer.py:94-97); `None` where encoding to ASCII raises. */
  function StrToFelt(s: string): (r: Option<nat>)
    ensures r.Some? <==> IsAscii(s)
    ensures r.Some? ==> r.value < Pow(256, |s|)
    ensures s == "" ==> r == Some(0)
  {
    if IsAscii(s) then
      FromDigitsBound(AsciiBytes(s), 256);
      Some(AsciiValue(s))
    else None
  }

  /** The felt of an ASCII text gives its bytes back (`int.to_bytes(len(text), "big")`),
      so distinct texts of one length never share a felt. */
  lemma StrToFeltRoundTrip(s: string)
    requires IsAscii(s)
    ensures ToDigitsN(StrToFelt(s).value, 256, |s|) == AsciiBytes(s)
  {
    ToFromDigitsN(AsciiBytes(s), 256);
  }

  // ---- hash_multicall ----

  /** How `hash_multicall` reads one call (signer.py:60): `call[0]` through
      `int(_, 16)`, `call[1]` as given, and `call[2]` hashed; components past
      the third are ignored. */
  function ReadMulticallCall(c: RawCall): Result<(int, int, seq<int>), CallFault>
  {
    if |c| == 0 then Err(WrongArity)
    else match TargetOf(c[0])
      case None => Err(BadTarget)
      case Some(to) =>
        if |c| < 3 then Err(WrongArity)
        else if !c[2].Felts? || !c[1].Felt? then Err(BadComponent)
        else Ok((to, c[1].felt, c[2].felts))
  }

  /** The per-call hashes `hash_multicall` collects into `hash_array`. */
  function CallHashes(crypto: Primitives, calls: seq<RawCall>): (r: Result<seq<int>, EncodeError>)
    ensures r.Ok? ==> |r.value| == |calls|
    ensures r.Err? ==> r.error.CallError? && r.error.at < |calls|
    decreases |calls|
  {
    if calls == [] then Ok([])
    else
      match CallHashes(crypto, calls[..|calls| - 1])
      case Err(e) => Err(e)
      case Ok(hashes) =>
        match ReadMulticallCall(calls[|calls| - 1])
        case Err(fault) => Err(CallError(|calls| - 1, fault))
        case Ok(call) =>
          var h := crypto.hashOnElements;
          Ok(hashes + [h([call.0, call.1, h(call.2)])])
  }

  /** `hash_array` has one element per call, in order: element `i` is the
      hash of call `i`'s target, its `call[1]` unchanged (no selector is
      computed here) and the hash of its arguments. */
  lemma {:induction false} CallHashesContents(crypto: Primitives, calls: seq<RawCall>, i: nat)
    requires CallHashes(crypto, calls).Ok? && i < |calls|
    ensures ReadMulticallCall(calls[i]).Ok?
    ensures var hashes := CallHashes(crypto, calls).value;
            var call := ReadMulticallCall(calls[i]).value;
            |hashes| == |calls|
            && hashes[i] == crypto.hashOnElements([call.0, call.1, crypto.hashOnElements(call.2)])
    decreases |calls|
  {
    var init := calls[..|calls| - 1];
    assert CallHashes(crypto, init).Ok?;
    if i < |init| {
      CallHashesContents(crypto, init, i);
      assert init[i] == calls[i];
    }
  }

  /** The six-element message `hash_multicall` hashes last (signer.py:63-70). */
  function MulticallMessage(crypto: Primitives, sender: int, hashArray: seq<int>, nonce: int, maxFee: int): (m: seq<int>)
    ensures |m| == 6 && StrToFelt(TRANSACTION_TAG).Some? && m[0] == StrToFelt(TRANSACTION_TAG).value
    ensures m[1..] == [sender, crypto.hashOnElements(hashArray), nonce, maxFee, TRANSACTION_VERSION]
  {
    assert IsAscii(TRANSACTION_TAG);
    [AsciiValue(TRANSACTION_TAG), sender, crypto.hashOnElements(hashArray), nonce, maxFee, TRANSACTION_VERSION]
  }

  /** `hash_multicall` (signer.py:56-71): the hash of
      `[str_to_felt("StarkNet Transaction"), sender, H(hash_array), nonce, max_fee, 0]`,
      or the error of the first unreadable call. */
  method HashMulticall(crypto: Primitives, sender: int, calls: seq<RawCall>, nonce: int, maxFee: int)
    returns (r: Result<int, EncodeError>)
    ensures CallHashes(crypto, calls).Err? ==> r == Err(CallHashes(crypto, calls).error)
    ensures CallHashes(crypto, calls).Ok? ==>
              r == Ok(crypto.hashOnElements(MulticallMessage(crypto, sender, CallHashes(crypto, calls).value, nonce, maxFee)))
  {
    var hashArray: seq<int> := [];
    for i := 0 to |calls|
      invariant CallHashes(crypto, calls[..i]) == Ok(hashArray)
    {
      var call := calls[i];
      assert calls[..i + 1][..i] == calls[..i] && calls[..i + 1][i] == call;
      var read := ReadMulticallCall(call);
      if read.Err? {
        CallHashesStopsAt(crypto, calls, i, read.error);
        return Err(CallError(i, read.error));
      }
      var (to, selector, args) := read.value;
      var callElements := [to, selector, crypto.hashOnElements(args)];
      hashArray := hashArray + [crypto.hashOnElements(callElements)];
    }
    assert calls[..|calls|] == calls;
    var message := MulticallMessage(crypto, sender, hashArray, nonce, maxFee);
    return Ok(crypto.hashOnElements(message));
  }

  /** An unreadable call after readable ones is `hash_multicall`'s error. */
  lemma {:induction false} CallHashesStopsAt(crypto: Primitives, calls: seq<RawCall>, i: nat, fault: CallFault)
    requires i < |calls| && CallHashes(crypto, calls[..i]).Ok? && ReadMulticallCall(calls[i]) == Err(fault)
    ensures CallHashes(crypto, calls) == Err(CallError(i, fault))
    decreases |calls|
  {
    var init := calls[..|calls| - 1];
    if i < |calls| - 1 {
      assert init[..i] == calls[..i] && init[i] == calls[i];
      CallHashesStopsAt(crypto, init, i, fault);
    } else {
      assert init == calls[..i];
    }
  }

  // ---- The signer ----

  /** `sign_transaction`'s result: `(call_array, calldata, sig_r, sig_s)`. */
  datatype SignedTransaction = SignedTransaction(callArray: seq<Entry>, calldata: seq<int>, sigR: int, sigS: int)

  /** `Signer` (signer.py:12-33): a private key and the public key derived from
      it, both fixed at construction. */
  class Signer {
    const privateKey: int
    const publicKey: int
    const crypto: Primitives

    constructor (privateKey: int, crypto: Primitives)
      ensures this.privateKey == privateKey && this.crypto == crypto
      ensures publicKey == crypto.privateToStarkKey(privateKey)
    {
      this.privateKey := privateKey;
      this.crypto := crypto;
      this.publicKey := crypto.privateToStarkKey(privateKey);
    }

    /** `sign`: the signing primitive applied to the hash and this signer's key. */
    method Sign(messageHash: int) returns (signature: (int, int))
      ensures signature == crypto.sign(messageHash, privateKey)
    {
      signature := crypto.sign(messageHash, privateKey);
    }

    /** `sign_transaction` (signer.py:24-33): encode the calls, hash the
        invoke transaction of `int(sender, 16)` over exactly that encoding, and
        sign the hash. The encoding is returned unchanged with the signature. */
    method SignTransaction(sender: string, calls: seq<RawCall>, nonce: int, maxFee: int)
      returns (r: Result<SignedTransaction, EncodeError>)
      ensures var enc := EncodeCalls(calls, crypto.selectorFromName);
              r.Ok? <==> enc.Ok? && ParseHex(sender).Some?
      ensures var enc := EncodeCalls(calls, crypto.selectorFromName);
              enc.Err? ==> r == Err(enc.error)
      ensures var enc := EncodeCalls(calls, crypto.selectorFromName);
              enc.Ok? && ParseHex(sender).None? ==> r == Err(BadSender)
      ensures var enc := EncodeCalls(calls, crypto.selectorFromName);
              r.Ok? ==>
                r.value.callArray == enc.value.callArray && r.value.calldata == enc.value.calldata
                && (r.value.sigR, r.value.sigS)
                   == crypto.sign(GetTransactionHash(crypto, ParseHex(sender).value, enc.value.callArray,
                                                     enc.value.calldata, nonce, maxFee), privateKey)
    {
      var encoded := FromCallToCallArray(calls, crypto.selectorFromName);
      if encoded.Err? {
        return Err(encoded.error);
      }
      var (callArray, calldata) := (encoded.value.callArray, encoded.value.calldata);
      var account := ParseHex(sender);
      if account.None? {
        return Err(BadSender);
      }
      var messageHash := GetTransactionHash(crypto, account.value, callArray, calldata, nonce, maxFee);
      var signature := Sign(messageHash);
      return Ok(SignedTransaction(callArray, calldata, signature.0, signature.1));
    }
  }
}
