/** Shared helpers of the command layer (src/nile/common.py): the file name
    constants, the integer/alias classifier, parameter stringification, the
    parser of deploy/declare output, and the gateway URL builders. */
module Common {
  import opened Wrappers
  import opened PyInt

  const DEPLOYMENTS_FILENAME: string := "deployments.txt"
  const DECLARATIONS_FILENAME: string := "declarations.txt"
  const ACCOUNTS_FILENAME: string := "accounts.json"

  predicate StartsWith(s: string, prefix: string)
  {
    |prefix| <= |s| && s[..|prefix|] == prefix
  }

  /** A `0x`-prefixed hexadecimal token (lower-case prefix, either-case digits). */
  predicate IsHexToken(s: string)
  {
    StartsWith(s, "0x") && AllHex(s[2..])
  }

  /** The `0x` branch of `is_string` accepts exactly the `0x`-prefixed hexadecimal tokens. */
  lemma HexBranch(s: string)
    ensures (StartsWith(s, "0x") && ParseHex(s).Some?) <==> IsHexToken(s)
  {
    if StartsWith(s, "0x") {
      assert s[0] == '0' && s[1] == 'x';
      assert SplitSign(s) == (false, s);
      assert DropHexPrefix(s) == s[2..];
      HexRunValueSpec(s[2..]);
    }
  }

  /** `is_string` (common.py:79-97): a token is a string (an alias) when it
      parses neither as a base-10 integer nor, after a `0x` prefix, as a
      base-16 one. Both parse failures are absorbed, so it is total. */
  function IsString(param: string): (r: bool)
    ensures r <==> !IsDecimalLiteral(param) && !IsHexToken(param)
  {
    var isInt := ParseDecimal(param).Some?;
    var isHex := StartsWith(param, "0x") && ParseHex(param).Some?;
    HexBranch(param);
    !isInt && !isHex
  }

  /** `is_alias` (common.py:100-102): an alias is exactly what is neither a
      decimal nor a `0x` hexadecimal token. */
  function IsAlias(param: string): (r: bool)
    ensures r <==> !IsDecimalLiteral(param) && !IsHexToken(param)
  {
    IsString(param)
  }

  /** The classifier on the tokens the command layer documents. */
  lemma IsStringRejects()
    ensures !IsString("42") && !IsString("-7") && !IsString("0x1a")
  {
    assert !IsDecimalDigit("0x1a"[1]);
  }

  /** Aliases: a plain word, a `0x` prefix followed by non-hex text, an
      upper-case `0X` (the regex is case-sensitive), and a bare `0x`. */
  lemma IsStringAccepts()
    ensures IsString("myalias") && IsString("0xzz") && IsString("0X1A") && IsString("0x")
  {
    assert !IsDecimalDigit("myalias"[0]) && !IsHexDigit("0xzz"[2]) && !IsDecimalDigit("0X1A"[1]);
    assert !IsDecimalDigit("0xzz"[1]) && !IsDecimalDigit("0x"[1]);
    assert "0X1A"[..2] != "0x" && "0x"[2..] == "";
  }

  // ---- stringify and prepare_params ----

  /** The Python values `stringify` walks: integers, strings, lists and tuples. */
  datatype PyValue = IntLeaf(i: int) | StrLeaf(s: string) | PyList(items: seq<PyValue>) | PyTuple(items: seq<PyValue>)

  /** The nesting structure of a value, lists and tuples alike. */
  datatype Shape = Atom | Node(children: seq<Shape>)

  function ShapeOf(x: PyValue): Shape
  {
    match x
    case PyList(items) => Node(seq(|items|, i requires 0 <= i < |items| => ShapeOf(items[i])))
    case PyTuple(items) => Node(seq(|items|, i requires 0 <= i < |items| => ShapeOf(items[i])))
    case _ => Atom
  }

  /** Lists all the way down, with strings as the only leaves. */
  predicate IsStringTree(x: PyValue)
  {
    match x
    case StrLeaf(_) => true
    case PyList(items) => forall i :: 0 <= i < |items| ==> IsStringTree(items[i])
    case _ => false
  }

  /** Python's `str(x)` for a leaf. */
  function Str(leaf: PyValue): string
    requires !leaf.PyList? && !leaf.PyTuple?
  {
    if leaf.IntLeaf? then IntToString(leaf.i) else leaf.s
  }

  /** `stringify` (common.py:62-69). `strToFelt` is `nile.utils.str_to_felt`.
      Nesting and lengths are kept, tuples become lists, and every leaf
      becomes a string. An integer leaf is never a short string, since
      `int()` accepts it. */
  function Stringify(x: PyValue, processShortStrings: bool, strToFelt: string -> int): (r: PyValue)
    ensures ShapeOf(r) == ShapeOf(x)
    ensures IsStringTree(r)
    decreases x, 1
  {
    match x
    case PyList(items) => StringifyItems(x, items, processShortStrings, strToFelt)
    case PyTuple(items) => StringifyItems(x, items, processShortStrings, strToFelt)
    case IntLeaf(i) => StrLeaf(IntToString(i))
    case StrLeaf(s) => if processShortStrings && IsString(s) then StrLeaf(IntToString(strToFelt(s))) else StrLeaf(s)
  }

  /** `[stringify(y, process_short_strings) for y in x]` for the items of list or tuple `x`. */
  function StringifyItems(x: PyValue, items: seq<PyValue>, processShortStrings: bool, strToFelt: string -> int): (r: PyValue)
    requires (x.PyList? || x.PyTuple?) && x.items == items
    ensures ShapeOf(r) == ShapeOf(x)
    ensures IsStringTree(r)
    decreases x, 0
  {
    var children := seq(|items|, i requires 0 <= i < |items| => Stringify(items[i], processShortStrings, strToFelt));
    assert seq(|children|, i requires 0 <= i < |children| => ShapeOf(children[i]))
        == seq(|items|, i requires 0 <= i < |items| => ShapeOf(items[i]));
    PyList(children)
  }

  /** `prepare_params` (common.py:72-76): `None` becomes the empty list;
      otherwise the shape is kept and each leaf becomes its string, short
      strings (aliases) as the decimal text of their felt. */
  function PrepareParams(params: Option<PyValue>, strToFelt: string -> int): (r: PyValue)
    ensures params.None? ==> r == PyList([])
    ensures params.Some? ==> ShapeOf(r) == ShapeOf(params.value) && IsStringTree(r)
    ensures params.Some? ==> Leaves(r) == StrAll(Leaves(params.value), true, strToFelt)
  {
    var x := if params.None? then PyList([]) else params.value;
    StringifyLeaves(x, true, strToFelt);
    Stringify(x, true, strToFelt)
  }

  /** The concatenation of a list of lists. */
  function Flat<T>(xss: seq<seq<T>>): seq<T>
  {
    if xss == [] then [] else xss[0] + Flat(xss[1..])
  }

  /** The leaves of a value, left to right. */
  function Leaves(x: PyValue): seq<PyValue>
  {
    match x
    case PyList(items) => Flat(seq(|items|, i requires 0 <= i < |items| => Leaves(items[i])))
    case PyTuple(items) => Flat(seq(|items|, i requires 0 <= i < |items| => Leaves(items[i])))
    case _ => [x]
  }

  /** What `stringify` makes of one leaf: with short-string processing, a
      string that is an alias becomes the decimal text of `str_to_felt` of it;
      every other leaf becomes `str(leaf)`. */
  function LeafString(leaf: PyValue, processShortStrings: bool, strToFelt: string -> int): (r: PyValue)
    requires !leaf.PyList? && !leaf.PyTuple?
    ensures r.StrLeaf?
    ensures leaf.IntLeaf? ==> r.s == IntToString(leaf.i)
    ensures leaf.StrLeaf? && !(processShortStrings && IsString(leaf.s)) ==> r == leaf
    ensures leaf.StrLeaf? && processShortStrings && IsString(leaf.s) ==> ParseDecimal(r.s) == Some(strToFelt(leaf.s))
  {
    if processShortStrings && leaf.StrLeaf? && IsString(leaf.s) then
      ParseIntToString(strToFelt(leaf.s));
      StrLeaf(IntToString(strToFelt(leaf.s)))
    else StrLeaf(Str(leaf))
  }

  /** `LeafString` applied to every leaf. */
  function StrAll(leaves: seq<PyValue>, processShortStrings: bool, strToFelt: string -> int): seq<PyValue>
  {
    if leaves == [] then []
    else
      var first := if leaves[0].PyList? || leaves[0].PyTuple? then leaves[0]
                   else LeafString(leaves[0], processShortStrings, strToFelt);
      [first] + StrAll(leaves[1..], processShortStrings, strToFelt)
  }

  lemma {:induction false} StrAllAppend(a: seq<PyValue>, b: seq<PyValue>, p: bool, f: string -> int)
    ensures StrAll(a + b, p, f) == StrAll(a, p, f) + StrAll(b, p, f)
  {
    if a == [] {
      assert a + b == b;
    } else {
      assert (a + b)[0] == a[0];
      assert (a + b)[1..] == a[1..] + b;
      StrAllAppend(a[1..], b, p, f);
    }
  }

  lemma {:induction false} StrAllFlat(xss: seq<seq<PyValue>>, p: bool, f: string -> int)
    ensures StrAll(Flat(xss), p, f) == Flat(seq(|xss|, i requires 0 <= i < |xss| => StrAll(xss[i], p, f)))
  {
    if xss != [] {
      StrAllAppend(xss[0], Flat(xss[1..]), p, f);
      StrAllFlat(xss[1..], p, f);
      assert seq(|xss|, i requires 0 <= i < |xss| => StrAll(xss[i], p, f))[1..]
          == seq(|xss[1..]|, i requires 0 <= i < |xss[1..]| => StrAll(xss[1..][i], p, f));
    }
  }

  /** The leaves of `stringify(x)` are the leaves of `x`, in the same order,
      each turned into its string as `LeafString` says. */
  lemma {:induction false} StringifyLeaves(x: PyValue, p: bool, strToFelt: string -> int)
    ensures Leaves(Stringify(x, p, strToFelt)) == StrAll(Leaves(x), p, strToFelt)
    decreases x
  {
    match x
    case IntLeaf(_) =>
    case StrLeaf(_) =>
    case PyList(items) => StringifyItemsLeaves(x, items, p, strToFelt);
    case PyTuple(items) => StringifyItemsLeaves(x, items, p, strToFelt);
  }

  lemma {:induction false} StringifyItemsLeaves(x: PyValue, items: seq<PyValue>, p: bool, strToFelt: string -> int)
    requires (x.PyList? || x.PyTuple?) && x.items == items
    ensures Leaves(Stringify(x, p, strToFelt)) == StrAll(Leaves(x), p, strToFelt)
    decreases x, 0
  {
    var children := seq(|items|, i requires 0 <= i < |items| => Stringify(items[i], p, strToFelt));
    assert Stringify(x, p, strToFelt) == PyList(children);
    var itemLeaves := seq(|items|, i requires 0 <= i < |items| => Leaves(items[i]));
    forall i | 0 <= i < |items|
      ensures Leaves(children[i]) == StrAll(itemLeaves[i], p, strToFelt)
    {
      StringifyLeaves(items[i], p, strToFelt);
    }
    StrAllFlat(itemLeaves, p, strToFelt);
    assert seq(|children|, i requires 0 <= i < |children| => Leaves(children[i]))
        == seq(|itemLeaves|, i requires 0 <= i < |itemLeaves| => StrAll(itemLeaves[i], p, strToFelt));
  }

  // ---- parse_information ----

  /** `[\da-f]`, with ASCII digits. */
  predicate IsLowerHexDigit(c: char)
  {
    '0' <= c <= '9' || 'a' <= c <= 'f'
  }

  /** A match of `0x[\da-f]{1,64}` can start at `p`. */
  predicate StartsToken(s: string, p: nat)
  {
    p + 2 < |s| && s[p] == '0' && s[p + 1] == 'x' && IsLowerHexDigit(s[p + 2])
  }

  /** `s[b..e]` is a greedy match of `0x[\da-f]{1,64}`: the prefix, one to 64
      digits, and no further digit could have been taken. */
  predicate IsGreedyToken(s: string, b: nat, e: nat)
  {
    b + 3 <= e <= b + 66 && e <= |s| && s[b] == '0' && s[b + 1] == 'x'
    && (forall k :: b + 2 <= k < e ==> IsLowerHexDigit(s[k]))
    && (e == b + 66 || e == |s| || !IsLowerHexDigit(s[e]))
  }

  /** The number of digits, at most `limit`, in the run starting at `j`. */
  function DigitRun(s: string, j: nat, limit: nat): (n: nat)
    requires j <= |s|
    ensures n <= limit && j + n <= |s|
    ensures forall k :: j <= k < j + n ==> IsLowerHexDigit(s[k])
    ensures n == limit || j + n == |s| || !IsLowerHexDigit(s[j + n])
    decreases limit
  {
    if limit == 0 || j == |s| || !IsLowerHexDigit(s[j]) then 0 else 1 + DigitRun(s, j + 1, limit - 1)
  }

  /** The spans `re.findall("0x[\\da-f]{1,64}", s)` matches from position
      `from` on, scanning left to right. */
  function TokenSpans(s: string, from: nat): (spans: seq<(nat, nat)>)
    requires from <= |s|
    ensures forall k :: 0 <= k < |spans| ==> from <= spans[k].0 < spans[k].1 <= |s|
    decreases |s| - from
  {
    if from == |s| then []
    else if StartsToken(s, from) then
      [(from, from + 2 + DigitRun(s, from + 2, 64))] + TokenSpans(s, from + 2 + DigitRun(s, from + 2, 64))
    else
      TokenSpans(s, from + 1)
  }

  /** The span taken at a position where a match starts is a greedy match. */
  lemma FirstSpanGreedy(s: string, from: nat)
    requires StartsToken(s, from)
    ensures IsGreedyToken(s, from, from + 2 + DigitRun(s, from + 2, 64))
  {
    DigitRunPositive(s, from + 2, 64);
  }

  lemma DigitRunPositive(s: string, j: nat, limit: nat)
    requires 0 < limit && j < |s| && IsLowerHexDigit(s[j])
    ensures DigitRun(s, j, limit) >= 1
  {
  }

  /** Every span found is a greedy match. */
  lemma {:induction false} TokenSpansGreedy(s: string, from: nat, k: nat)
    requires from <= |s| && k < |TokenSpans(s, from)|
    ensures IsGreedyToken(s, TokenSpans(s, from)[k].0, TokenSpans(s, from)[k].1)
    decreases |s| - from
  {
    assert from < |s|;
    if StartsToken(s, from) {
      var end := from + 2 + DigitRun(s, from + 2, 64);
      var rest := TokenSpans(s, end);
      assert TokenSpans(s, from) == [(from, end)] + rest;
      if k > 0 {
        TokenSpansGreedy(s, end, k - 1);
        assert TokenSpans(s, from)[k] == rest[k - 1];
      } else {
        FirstSpanGreedy(s, from);
      }
    } else {
      assert TokenSpans(s, from) == TokenSpans(s, from + 1);
      TokenSpansGreedy(s, from + 1, k);
    }
  }

  /** The spans do not overlap and come in order. */
  lemma {:induction false} TokenSpansOrdered(s: string, from: nat, k: nat)
    requires from <= |s| && 0 < k < |TokenSpans(s, from)|
    ensures TokenSpans(s, from)[k - 1].1 <= TokenSpans(s, from)[k].0
    decreases |s| - from
  {
    if StartsToken(s, from) {
      var end := from + 2 + DigitRun(s, from + 2, 64);
      if k > 1 {
        TokenSpansOrdered(s, end, k - 1);
      }
    } else {
      TokenSpansOrdered(s, from + 1, k);
    }
  }

  /** No match is missed: every position at or after `from` where a match
      could start lies inside one of the spans. */
  lemma {:induction false} TokenSpansCover(s: string, from: nat, p: nat)
    requires from <= p < |s| && StartsToken(s, p)
    ensures exists k :: 0 <= k < |TokenSpans(s, from)| && TokenSpans(s, from)[k].0 <= p < TokenSpans(s, from)[k].1
    decreases |s| - from
  {
    var spans := TokenSpans(s, from);
    if StartsToken(s, from) {
      var end := from + 2 + DigitRun(s, from + 2, 64);
      if p < end {
        assert spans[0] == (from, end);
      } else {
        TokenSpansCover(s, end, p);
        var rest := TokenSpans(s, end);
        var k :| 0 <= k < |rest| && rest[k].0 <= p < rest[k].1;
        assert spans[k + 1] == rest[k];
      }
    } else {
      assert p != from;
      TokenSpansCover(s, from + 1, p);
    }
  }

  /** The error `parse_information` raises when the output does not hold exactly two tokens. */
  datatype InfoError = NotTwoTokens(found: nat)

  /** `parse_information` (common.py:55-59): the address and the transaction
      hash are the two hexadecimal tokens of the output, in order of
      appearance, each through `normalize_number`. */
  function ParseInformation(x: string, normalize: string -> int): (r: Result<(int, int), InfoError>)
    ensures r.Ok? <==> |TokenSpans(x, 0)| == 2
    ensures r.Ok? ==>
              var spans := TokenSpans(x, 0);
              r.value == (normalize(x[spans[0].0..spans[0].1]), normalize(x[spans[1].0..spans[1].1]))
  {
    var spans := TokenSpans(x, 0);
    if |spans| != 2 then Err(NotTwoTokens(|spans|))
    else Ok((normalize(x[spans[0].0..spans[0].1]), normalize(x[spans[1].0..spans[1].1])))
  }

  // ---- Gateway URLs and StarkNet CLI arguments ----

  /** Why a URL could not be built: `GATEWAYS` is `None` (the node file was
      missing when the module loaded), or the network has no StarkWare entry. */
  datatype UrlError = NoGatewayConfig | UnknownNetwork

  /** `get_gateway_url` (common.py:105-111). `gateways` is `GATEWAYS`; `hosts`
      is StarkWare's `NETWORKS` table. */
  function GetGatewayUrl(network: string, gateways: Option<map<string, string>>, hosts: map<string, string>)
    : (r: Result<Option<string>, UrlError>)
    ensures network != "localhost" ==>
              (r.Ok? <==> "alpha-" + network in hosts)
              && (r.Ok? ==> r.value == Some("https://" + hosts["alpha-" + network] + "/gateway"))
    ensures network == "localhost" ==>
              (r.Ok? <==> gateways.Some?)
              && (r.Ok? ==> r.value == if "localhost" in gateways.value then Some(gateways.value["localhost"]) else None)
    ensures r.Err? ==> r.error == if network == "localhost" then NoGatewayConfig else UnknownNetwork
  {
    if network == "localhost" then
      if gateways.None? then Err(NoGatewayConfig)
      else Ok(if network in gateways.value then Some(gateways.value[network]) else None)
    else
      var key := "alpha-" + network;
      if key in hosts then Ok(Some("https://" + hosts[key] + "/gateway")) else Err(UnknownNetwork)
  }

  /** `get_feeder_url` (common.py:114-120). */
  function GetFeederUrl(network: string, gateways: Option<map<string, string>>, hosts: map<string, string>)
    : (r: Result<Option<string>, UrlError>)
    ensures network != "localhost" ==>
              (r.Ok? <==> "alpha-" + network in hosts)
              && (r.Ok? ==> r.value == Some("https://" + hosts["alpha-" + network] + "/feeder_gateway"))
    ensures network == "localhost" ==>
              (r.Ok? <==> gateways.Some?)
              && (r.Ok? ==> r.value == if "localhost" in gateways.value then Some(gateways.value["localhost"]) else None)
    ensures r.Err? ==> r.error == if network == "localhost" then NoGatewayConfig else UnknownNetwork
  {
    if network == "localhost" then
      if gateways.None? then Err(NoGatewayConfig)
      else Ok(if network in gateways.value then Some(gateways.value[network]) else None)
    else
      var key := "alpha-" + network;
      if key in hosts then Ok(Some("https://" + hosts[key] + "/feeder_gateway")) else Err(UnknownNetwork)
  }

  /** The two URLs agree: both are built or both fail, they coincide for
      `localhost`, and elsewhere they share the `https://` host and differ
      only in the final path component. */
  lemma GatewayAndFeederAgree(network: string, gateways: Option<map<string, string>>, hosts: map<string, string>)
    ensures GetGatewayUrl(network, gateways, hosts).Ok? <==> GetFeederUrl(network, gateways, hosts).Ok?
    ensures network == "localhost" ==> GetGatewayUrl(network, gateways, hosts) == GetFeederUrl(network, gateways, hosts)
    ensures network != "localhost" && GetGatewayUrl(network, gateways, hosts).Ok? ==>
              var gateway := GetGatewayUrl(network, gateways, hosts).value.value;
              var feeder := GetFeederUrl(network, gateways, hosts).value.value;
              gateway[..|gateway| - 8] == feeder[..|feeder| - 15]
              && gateway[|gateway| - 8..] == "/gateway" && feeder[|feeder| - 15..] == "/feeder_gateway"
  {
    if network != "localhost" && "alpha-" + network in hosts {
      var base := "https://" + hosts["alpha-" + network];
      assert (base + "/gateway")[..|base|] == base;
      assert (base + "/feeder_gateway")[..|base|] == base;
    }
  }

  /** The namespace `set_args` builds for the StarkNet CLI (common.py:136-143). */
  datatype StarknetArgs = StarknetArgs(
    gatewayUrl: Option<string>,
    feederGatewayUrl: Option<string>,
    wallet: string,
    networkId: string,
    accountDir: Option<string>,
    account: Option<string>)

  /** `set_args` (common.py:134-145): both URLs of the network, an empty
      wallet, the network as its id, and no account. */
  function SetArgs(network: string, gateways: Option<map<string, string>>, hosts: map<string, string>)
    : (r: Result<StarknetArgs, UrlError>)
    ensures r.Ok? <==> GetGatewayUrl(network, gateways, hosts).Ok?
    ensures r.Ok? ==>
              r.value.gatewayUrl == GetGatewayUrl(network, gateways, hosts).value
              && r.value.feederGatewayUrl == GetFeederUrl(network, gateways, hosts).value
              && r.value.networkId == network && r.value.wallet == ""
              && r.value.accountDir.None? && r.value.account.None?
  {
    match GetGatewayUrl(network, gateways, hosts)
    case Err(e) => Err(e)
    case Ok(gatewayUrl) =>
      match GetFeederUrl(network, gateways, hosts)
      case Err(e) => Err(e)
      case Ok(feederUrl) => Ok(StarknetArgs(gatewayUrl, feederUrl, "", network, None, None))
  }
}
