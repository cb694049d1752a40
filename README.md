# nile core, modelled in Dafny

nile is a command-line tool for developing StarkNet contracts. This project
models the parts of it that every command relies on:

- **Transaction encoding and signing** (`src/nile/signer.py`). Calls
  `(to, selector_name, args)` are flattened into a call array of
  `(to, selector, data_offset, data_len)` entries and one calldata list. The
  invoke transaction hash is taken over `[len(call_array), *entries,
  len(calldata), *calldata, nonce]`, and the hash is signed. `hash_multicall`
  and `str_to_felt` are here too.
- **The deployment and declaration logs** (`src/nile/deployments.py`). Each
  network has a text log `<network>.deployments.txt` of lines
  `address:abi[:alias]`, and a log `<network>.declarations.txt` of lines
  `hash[:alias]`. Registering appends a line, after checking that the alias
  (or the class hash) is not already there. Loading scans the log line by
  line.
- **The account registry** (`src/nile/accounts.py`). Each network has a JSON
  object `<network>.accounts.json` that maps a public key to
  `{address, index, alias}`.
- **The shared helpers** (`src/nile/common.py`):
  - the integer/alias classifier `is_string`;
  - the recursive `stringify` and `prepare_params`;
  - `parse_information`, the regular-expression parser of deploy/declare output;
  - the gateway URL builders and `set_args`.
- **Network validation** of the `--network` option (`src/nile/cli.py`).

Dafny modules:

| file | module | what it holds |
|---|---|---|
| `wrappers.dfy` | `Wrappers` | `Option` and `Result` |
| `digits.dfy` | `Digits` | big-endian digit values, used for `int.from_bytes` and `int(s, 16)` |
| `pystrings.dfy` | `PyStrings` | Python's `str.strip`, `str.split`, `str.join`, and reading a text file line by line |
| `pyint.dfy` | `PyInt` | Python's `int(s)`, `int(s, 16)` and `str(n)` on the literals nile handles |
| `common.dfy` | `Common` | the file-name constants and the functions of `common.py` |
| `signer.dfy` | `Signing` | the encoding, the hashes and the `Signer` class |
| `deployments.dfy` | `Deployments` | line format, scans, and the `Registry` class over the log files |
| `accounts.dfy` | `Accounts` | the `AccountStore` class over the accounts files |
| `cli.dfy` | `Cli` | `NETWORKS` and `_validate_network` |

How the model is built:

- **StarkWare primitives are parameters.** The entry-point selector,
  `compute_hash_on_elements`, `calculate_transaction_hash_common`,
  `private_to_stark_key` and `sign` are fields of a `Primitives` record of
  total functions. The model states exactly which arguments they receive and
  assumes nothing about what they compute. `normalize_number` and
  `nile.utils.str_to_felt` come in as function parameters in the same way.
- **Files are state.** The log files are a `map` from file name to text. A
  missing key is a file that does not exist. The accounts files are a `map`
  from file name to the JSON object they hold.
- **Exceptions are `Err` values.** Python exceptions become the `Err` side of
  a `Result`, with a datatype that names the cause.

## Model

| member | source | states |
|---|---|---|
| Signing.FromCallToCallArray | src/nile/signer.py:39-53 | The loop computes exactly `EncodeCalls`: calls are read in order; the first call that fails the arity assertion, has a target `int(_, 16)` rejects, or has a mistyped component aborts with its index and fault; every other call appends its entry and its arguments |
| Signing.EncodeCalls | src/nile/signer.py:39-53 | The reference definition of `from_call_to_call_array`. A success has one entry per call; a failure names the index of a call in the list |
| Signing.EncodeCallsRoundTrip | src/nile/signer.py:45-52 | In a successful encoding, every call `i` can be read back. Entry `i` holds that call's target and the selector of its name. Its offset and length select a calldata slice equal to call `i`'s arguments |
| Signing.EncodeCallsTiling | src/nile/signer.py:41-52 | A successful encoding has one entry per call. The slices tile the calldata: the first starts at 0, each starts where the previous one ends, and the last ends at `len(calldata)` |
| Signing.EncodeCallsCalldata | src/nile/signer.py:42-52 | The calldata of a successful encoding is the concatenation of every call's argument list, in call order |
| Signing.EncodeCallsFirstError | src/nile/signer.py:43-44 | A failed encoding names a call index whose read fails with the reported fault, and every earlier call reads successfully |
| Signing.EncodeCallsStopsAt | src/nile/signer.py:43-44 | An unreadable call after a readable prefix is the encoding's error, whatever follows it |
| Signing.EncodeCallsSnoc | src/nile/signer.py:43-52 | A successful encoding is the encoding of all calls but the last, followed by the last call's entry (at the current calldata length) and its arguments |
| Signing.DescribesExtended | src/nile/signer.py:52 | Extending the calldata leaves every existing entry's slice unchanged |
| Signing.ExecuteCalldata | src/nile/signer.py:75-80 | The execute calldata has `4 * len(call_array) + len(calldata) + 3` elements |
| Signing.FlattenEntries | src/nile/signer.py:77 | Flattening the call array gives four fields per entry |
| Signing.DecodeFlattenEntries | src/nile/signer.py:77 | The flattened call array reads back to the same entries |
| Signing.DecodeExecuteCalldataRoundTrip | src/nile/signer.py:75-80 | The execute calldata layout loses nothing: the call array, the calldata and the nonce can be read back from it |
| Signing.TransactionHashInput | src/nile/signer.py:74-91 | The transaction hash receives the INVOKE prefix, version 0, the account, the selector of `__execute__`, the max fee, the testnet chain id and no additional data. Its calldata reads back to exactly the call array, the calldata and the nonce |
| Signing.GetTransactionHash | src/nile/signer.py:74-91 | `get_transaction_hash` is the transaction-hash primitive applied to exactly that input |
| Signing.TransactionHashInputInjective | src/nile/signer.py:74-91 | Two transactions pass the same input to the transaction hash only if account, call array (so call order), calldata, nonce and max fee all agree |
| Signing.StrToFelt | src/nile/signer.py:94-97 | Defined exactly on ASCII text (elsewhere `bytes(text, "ascii")` raises). The value is below `256^len(text)`, and the empty text gives 0 |
| Signing.StrToFeltRoundTrip | src/nile/signer.py:94-97 | The big-endian bytes of the felt, at the text's length, are the text's ASCII codes, so texts of one length never share a felt |
| Signing.AsciiBytes | src/nile/signer.py:96 | `bytes(text, "ascii")` has one byte per character, each below 256 |
| Signing.CallHashesContents | src/nile/signer.py:58-61 | When all calls are read, `hash_array` has one element per call. Element `i` is `H([int(call[0], 16), call[1], H(call[2])])`; `call[1]` is used as given, with no selector computed |
| Signing.CallHashes | src/nile/signer.py:58-61 | A completed `hash_array` has one element per call. A failure names the index of a call in the list |
| Signing.CallHashesStopsAt | src/nile/signer.py:59-60 | The first call that cannot be read aborts `hash_multicall` with that call's index and fault |
| Signing.HashMulticall | src/nile/signer.py:56-71 | Either the first unreadable call's error, or `H([str_to_felt("StarkNet Transaction"), sender, H(hash_array), nonce, max_fee, 0])` over the `hash_array` of all calls |
| Signing.MulticallMessage | src/nile/signer.py:63-70 | The message has six elements: `str_to_felt("StarkNet Transaction")`, then sender, `H(hash_array)`, nonce, max fee and version 0, in that order |
| Signing.Signer.constructor | src/nile/signer.py:15-18 | Keeps the private key and derives the public key from it |
| Signing.Signer.Sign | src/nile/signer.py:20-22 | The signing primitive applied to the message hash and this signer's private key |
| Signing.Signer.SignTransaction | src/nile/signer.py:24-33 | Succeeds exactly when the calls encode and the sender is a base-16 integer; otherwise returns the encoding error or `BadSender`. On success it returns the encoding unchanged, with the signature over the invoke hash of `int(sender, 16)` and exactly that encoding |
| Deployments.ParseDeploymentLine | src/nile/deployments.py:23-26 | A line written by `register` has no newline. When the fields hold no `:`, `\n` or `\r` and the line has no whitespace at its ends, `line.strip().split(":")` unpacks it back to the same address, abi and alias. Inner whitespace is kept |
| Deployments.ParseDeclarationLine | src/nile/deployments.py:42-45 | A line written by `register_class_hash` has no newline. Under the same conditions it unpacks back to the same hash and alias |
| Deployments.FieldsLine | src/nile/deployments.py:69 | Fields with no `:`, `\n` or `\r`, joined by `:` into a line with no whitespace at its ends, survive `strip().split(":")` unchanged |
| Deployments.ParseDeploymentFields | src/nile/deployments.py:69 | `[address, abi, *alias] = line.strip().split(":")` unpacks exactly when the stripped line holds a `:`. The fields are then free of `:` and join back to the stripped line |
| Deployments.ParseDeclarationFields | src/nile/deployments.py:84 | `[hash, *alias] = line.strip().split(":")` always unpacks. The fields are free of `:` and join back to the stripped line |
| Deployments.DeploymentLineFields | src/nile/deployments.py:23-26 | The line `register` writes, `address:abi` then `:alias` when given, is the fields joined by `:` |
| Deployments.DeclarationLineFields | src/nile/deployments.py:42-45 | The line `register_class_hash` writes, `hash` then `:alias` when given, is the fields joined by `:` |
| Deployments.ParseDeployments | src/nile/deployments.py:68-69 | One unpacked record per line of the log |
| Deployments.ParseDeclarations | src/nile/deployments.py:83-84 | One unpacked record per line of the log |
| Deployments.LoadRecords | src/nile/deployments.py:68-72 | `load` yields at most one pair per line |
| Deployments.LoadClassRecords | src/nile/deployments.py:83-87 | `load_class` yields at most one hash per line |
| Deployments.LoadRecordsPrefix | src/nile/deployments.py:68-72 | Reading more lines only extends what `load` has yielded. Once a bad line has raised, nothing more is read |
| Deployments.LoadStep | src/nile/deployments.py:68-72 | One more line after a prefix that did not raise: a bad line raises, a matching line yields `(normalize_number(address), abi)`, any other line yields nothing |
| Deployments.NextRecord | src/nile/deployments.py:48-51 | After a prefix with no match and no error, the next line raises exactly when it does not unpack, and yields exactly when it matches |
| Deployments.LoadRecordsSnoc | src/nile/deployments.py:68-72 | `load` over one more line: unchanged after an error, otherwise extended as that line dictates |
| Deployments.LoadClassRecordsSnoc | src/nile/deployments.py:83-87 | `load_class` over one more line appends its hash exactly when the identifier is that hash or one of its aliases |
| Deployments.ClassHashFound | src/nile/deployments.py:54-57 | `hash in load_class(hash)` holds exactly when some line's hash field is `hash`: a line matching only through its alias yields a different hash |
| Deployments.LoadAfterAppend | src/nile/deployments.py:9-26 | Appending a writable `register` line (fields without `:`, `\n` or `\r`, no whitespace at the line's ends) to a log of complete lines: `load` then yields one more pair `(normalize_number(address), abi)` exactly when the identifier is the address or the alias. A scan that had already raised is unchanged |
| Deployments.AppendDeploymentRecord | src/nile/deployments.py:23-26 | The log after a writable `register` line is the earlier log plus the new record |
| Deployments.LoadClassAfterAppend | src/nile/deployments.py:29-45 | After a writable `register_class_hash` line, `load_class` yields the new hash as well, exactly when the identifier is that hash or the alias |
| Deployments.AppendDeclarationRecord | src/nile/deployments.py:42-45 | The log after a writable `register_class_hash` line is the earlier log plus the new record |
| Deployments.LogFilesDistinct | src/nile/deployments.py:11 | Distinct networks never share a deployments log or a declarations log, and no deployments log is a declarations log |
| Deployments.Registry.constructor | src/nile/deployments.py:64-65 | No log file exists at first |
| Deployments.Registry.Load | src/nile/deployments.py:60-72 | The line-by-line scan yields exactly `LoadRecords` of the network's log, stopping at the first line that does not unpack. A missing file yields nothing |
| Deployments.Registry.Exists | src/nile/deployments.py:48-51 | True when `load` yields anything. Otherwise the error when a bad line comes before any match, and false when there is neither |
| Deployments.Registry.LoadClass | src/nile/deployments.py:75-87 | The scan yields exactly `LoadClassRecords` of the network's declarations log. A missing file yields nothing |
| Deployments.Registry.ClassHashExists | src/nile/deployments.py:54-57 | True exactly when some declaration line has this hash |
| Deployments.Registry.Register | src/nile/deployments.py:9-26 | With an alias, refused when `load(alias)` finds it, and fails when the scan raises first. Without an alias nothing is checked. On success exactly one `address:abi[:alias]` line is appended to this network's log. Every other log is unchanged, and logs stay made of complete lines. For a writable line, `load(id)` afterwards yields one more pair `(normalize_number(address), abi)` exactly when `id` is the address or the alias; in particular `load(alias)` then yields exactly that pair |
| Deployments.Registry.AppendDeployment | src/nile/deployments.py:23-26 | Appends exactly one `address:abi[:alias]` line to this network's log, creating the log if missing. Every other log is unchanged, and logs stay made of complete lines. For a writable line, every `load(id)` changes as `LoadsAfterAppend` says: one more pair `(normalize_number(address), abi)` exactly when `id` is the address or the alias, nothing otherwise, and a scan that had raised still raises |
| Deployments.Registry.DeployedText | src/nile/deployments.py:62-69 | A network's deployments are the parsed lines of its log's text, and a missing log has none |
| Deployments.Registry.DeployedAfterAppend | src/nile/deployments.py:23-26 | When a log holds `text` followed by one writable `register` line, every `load(id)` relates to `load(id)` over `text` as `LoadsAfterAppend` says |
| Deployments.LoadAfterAppendAll | src/nile/deployments.py:9-26 | `LoadAfterAppend` for every identifier at once |
| Deployments.Registry.RegisterClassHash | src/nile/deployments.py:29-45 | Refused exactly when some declaration already has the hash. On success exactly one `hash[:alias]` line is appended to this network's log, and every other log is unchanged. For a writable line, `load_class(id)` afterwards yields the new hash as well, exactly when `id` is the hash or the alias |
| Accounts.AccountsFileInjective | src/nile/accounts.py:11 | Distinct networks never share an accounts file |
| Accounts.RegisterAtCurrentIndex | src/nile/accounts.py:9-20 | Registering a new key at `current_index` keeps the indices exactly `0 .. len - 1`, each used once, and the counter grows by one |
| Accounts.AccountStore.constructor | src/nile/accounts.py:33-35 | No accounts file exists at first |
| Accounts.AccountStore.Load | src/nile/accounts.py:29-40 | Creates the network's file as `{}` if missing, and leaves its contents otherwise. Yields `normalize_number(record)` exactly when the key is present |
| Accounts.AccountStore.Exists | src/nile/accounts.py:23-26 | True exactly when the key is in the network's table. The file is created as `load` does |
| Accounts.AccountStore.Register | src/nile/accounts.py:9-20 | Refused exactly when the key is present. Otherwise the key maps to the new record, the table grows by one, and no other key or network changes |
| Accounts.AccountStore.CurrentIndex | src/nile/accounts.py:43-49 | The number of keys in the network's table. Fails exactly when the file does not exist |
| Common.IsString | src/nile/common.py:79-97 | A token is a string exactly when it is neither a decimal integer literal nor a `0x`-prefixed hexadecimal token |
| Common.IsAlias | src/nile/common.py:100-102 | An alias is exactly what is neither a decimal nor a `0x` hexadecimal token |
| Common.HexBranch | src/nile/common.py:91-95 | The `startswith("0x")` plus `int(param, 16)` branch accepts exactly the `0x`-prefixed runs of hex digits |
| Common.IsStringRejects | src/nile/common.py:79-97 | `42`, `-7` and `0x1a` are not strings |
| Common.IsStringAccepts | src/nile/common.py:79-97 | `myalias`, `0xzz`, `0X1A` and a bare `0x` are strings |
| Common.Stringify | src/nile/common.py:62-69 | Nesting and lengths are kept, tuples become lists, and every leaf becomes a string |
| Common.StringifyItems | src/nile/common.py:64-65 | The list case keeps each item's shape and yields only strings |
| Common.StringifyLeaves | src/nile/common.py:62-69 | In both modes, the leaves of `stringify(x)` are the leaves of `x`, in the same order, each turned into its string as `LeafString` says |
| Common.LeafString | src/nile/common.py:67-69 | One leaf: an integer becomes `str(n)`. With short-string processing, an alias string `s` becomes text that `int()` reads as `str_to_felt(s)`. Any other string is kept |
| Common.StringifyItemsLeaves | src/nile/common.py:64-65 | The same for the items of a list or tuple |
| Common.StrAllAppend | src/nile/common.py:67-69 | Converting leaf by leaf distributes over concatenation |
| Common.StrAllFlat | src/nile/common.py:65 | Converting leaf by leaf commutes with flattening |
| Common.PrepareParams | src/nile/common.py:72-76 | `None` becomes `[]`. Otherwise the shape is kept, every leaf is a string, and the leaves are those of the input in order, with aliases replaced by the decimal text of their felt |
| Common.DigitRun | src/nile/common.py:58 | `[\da-f]{1,64}` takes the longest run of digits, up to 64 |
| Common.TokenSpans | src/nile/common.py:58 | Every span that `re.findall` finds lies inside the text |
| Common.TokenSpansGreedy | src/nile/common.py:58 | Every span found is `0x` followed by 1 to 64 digits, and could not have been extended |
| Common.FirstSpanGreedy | src/nile/common.py:58 | The span taken where a match starts is a greedy match |
| Common.DigitRunPositive | src/nile/common.py:58 | A match takes at least one digit |
| Common.TokenSpansOrdered | src/nile/common.py:58 | The spans come in order and do not overlap |
| Common.TokenSpansCover | src/nile/common.py:58 | No match is missed: every position where `0x[\da-f]` starts lies inside some span |
| Common.ParseInformation | src/nile/common.py:55-59 | Succeeds exactly when the output holds two tokens. The result is the two tokens, in order, through `normalize_number` |
| Common.GetGatewayUrl | src/nile/common.py:105-111 | For `localhost`, `GATEWAYS.get(network)`, failing when `GATEWAYS` is `None`. Otherwise `https://<host>/gateway` for StarkWare's `alpha-<network>` host, failing exactly when that host is unknown |
| Common.GetFeederUrl | src/nile/common.py:114-120 | The same, with `/feeder_gateway` |
| Common.GatewayAndFeederAgree | src/nile/common.py:105-120 | Both URLs are built or both fail. They coincide for `localhost`, and elsewhere they share the host and differ only in the final path component |
| Common.SetArgs | src/nile/common.py:134-145 | Both URLs of the network, an empty wallet, the network as its id, and no account directory or account |
| Cli.ValidateNetwork | src/nile/cli.py:51-63 | A known network is kept, `testnet` becomes `goerli`, and `127.0.0.1` becomes `localhost`. Anything else is rejected with `BadParameter`, and every accepted value is in `NETWORKS` |
| Cli.ValidateNetworkIdempotent | src/nile/cli.py:29 | A validated network validates to itself |
| PyInt.ParseDecimal | src/nile/common.py:85-88 | `int(param)` succeeds exactly on `[+-]?[0-9]+` |
| PyInt.HexRunValueSpec | src/nile/common.py:93 | A run of hex digits has a value exactly when it is non-empty and all hex digits, and that value is its base-16 reading |
| PyInt.ParseIntToString | src/nile/common.py:69 | `int(str(n)) == n` |
| Digits.FromDigitsBound | src/nile/signer.py:97 | `int.from_bytes` of `n` bytes is below `256^n` |
| Digits.ToFromDigitsN | src/nile/signer.py:97 | `to_bytes(n, "big")` of `from_bytes` gives the bytes back |
| PyStrings.Strip | src/nile/deployments.py:69 | `str.strip()` returns a slice of the text with only whitespace before and after it, and with no whitespace at either of its own ends. Text with none at its ends is returned unchanged |
| PyStrings.Split | src/nile/deployments.py:69 | `str.split(sep)` gives at least one piece, none holds `sep`, and joining them with `sep` gives the text back |
| PyStrings.SplitCount | src/nile/deployments.py:69 | `s.split(sep)` has at least two pieces exactly when `sep` occurs in `s` |
| PyStrings.SplitJoin | src/nile/deployments.py:69 | Splitting pieces that hold no separator, after joining them, gives the pieces back |
| PyStrings.JoinExcludes | src/nile/deployments.py:23-26 | A character other than the separator that is in none of the fields is not in the joined line |
| PyStrings.Lines | src/nile/deployments.py:68 | The lines of a file hold no newline |
| PyStrings.AppendLine | src/nile/deployments.py:23-26 | Appending a line and a newline to a file of complete lines adds exactly that line |

## Left out

- Files are state, not files on disk. Opening, reading and writing the log and accounts files, and checking whether they exist, are modelled as reads and updates of the `files` maps.
- The `node.json` bootstrap behind `GATEWAYS` (common.py:24-36) is left out. When the file is missing, Python writes a default file and leaves `GATEWAYS` as `None` for that process; `NoGatewayConfig` stands for that case. `GATEWAYS` itself is the `gateways` parameter of the URL functions, and StarkWare's `NETWORKS` host table is a parameter too.
- Concurrent access to the log and accounts files is not modelled.
- Logging calls are left out. They are side effects only.
- Exception messages are left out. Each exception is the `Err` side of a `Result`, with a datatype naming its cause.
- The StarkWare primitives are opaque. Pedersen hashing, `get_selector_from_name`, `calculate_transaction_hash_common`, `private_to_stark_key` and ECDSA `sign` are parameters with no properties.
- `normalize_number` and `nile.utils.str_to_felt` are opaque function parameters. `nile.utils` is not part of this model.
- `int()` is simplified. It takes `[+-]?[0-9]+`, and base 16 takes `[+-]?(0x|0X)?[0-9a-fA-F]+`. Surrounding whitespace, `_` digit separators and non-ASCII digits, all of which Python also accepts, are not modelled.
- In `parse_information`, `\d` is taken as the ASCII digits. `str(x)` is given as a string.
- Common.ParseInformation: a result with fewer or more than two matches is one error, `NotTwoTokens`, carrying the count. Python raises the same `ValueError` type for both.
- Reading a file line by line splits only on `\n`. Python's universal-newline translation of `\r` and `\r\n` is not modelled. A field that can be written (`Deployments.IsField`) holds no `\r`, so the line `register` writes is read back as that one line by Python too.
- JSON is taken to be lossless. An accounts file holds exactly the map last written to it. The record's `index` is an integer.
- Signing.ReadCall: a call component with an unexpected Python type (a target that is not a string, a selector name that is not a string, arguments that are not a list) is one fault, `BadComponent`. The Python code fails on these in varying ways, some only later inside the StarkWare primitives.
- Signing.ReadMulticallCall: `hash_multicall` never checks the arity. A call shorter than three components is reported as `WrongArity`, where Python raises `IndexError`.
- Python default arguments are not modelled: `Signing.Signer.SignTransaction` always takes `maxFee` (Python's `max_fee=0`), and `Common.Stringify` always takes `processShortStrings` (Python's `process_short_strings=False`). Passing `0` or `false` gives the default behaviour.
- `get_all_contracts`, `capture_stdout` and the other CLI commands lie outside this model.
