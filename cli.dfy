/** Network normalisation for the `--network` option (`nile/cli.py`). */
module Cli {
  import opened Wrappers

  /** The networks nile knows, in the order of `NETWORKS` (cli.py:29). */
  const NETWORKS: seq<string> := ["localhost", "integration", "goerli", "goerli2", "mainnet"]

  /** `click.BadParameter` carrying the rejected value. */
  datatype BadParameter = BadParameter(value: string)

  /** `_validate_network` (cli.py:51-63): a known network is kept,
      `testnet` becomes `goerli`, `127.0.0.1` becomes `localhost`, and
      anything else is rejected. */
  function ValidateNetwork(value: string): (r: Result<string, BadParameter>)
    ensures value in NETWORKS ==> r == Ok(value)
    ensures value == "testnet" ==> r == Ok("goerli")
    ensures value == "127.0.0.1" ==> r == Ok("localhost")
    ensures r.Err? <==> value !in NETWORKS && value != "testnet" && value != "127.0.0.1"
    ensures r.Err? ==> r.error == BadParameter(value)
    ensures r.Ok? ==> r.value in NETWORKS
  {
    if value in NETWORKS then Ok(value)
    else if value == "testnet" then Ok("goerli")
    else if value == "127.0.0.1" then Ok("localhost")
    else Err(BadParameter(value))
  }

  /** Validation is idempotent: a validated name validates to itself. */
  lemma ValidateNetworkIdempotent(value: string)
    ensures ValidateNetwork(value).Ok? ==> ValidateNetwork(ValidateNetwork(value).value) == ValidateNetwork(value)
  {
  }
}
