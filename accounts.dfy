/** The account registry (`nile/accounts.py`): one JSON object per network,
    stored in `<network>.accounts.json`, mapping a public key to the account's
    address, index and alias. */
module Accounts {
  import opened Wrappers
  import opened Common

  /** The value stored under a public key. */
  datatype AccountRecord = AccountRecord(address: string, index: int, alias: string)

  /** Why an account operation failed: the key is already registered, or the
      network's file does not exist (`open` raises `FileNotFoundError`). */
  datatype AccountError = AccountExists | FileMissing

  function AccountsFile(network: string): string
  {
    network + "." + ACCOUNTS_FILENAME
  }

  /** Distinct networks never share an accounts file. */
  lemma AccountsFileInjective(n1: string, n2: string)
    ensures AccountsFile(n1) == AccountsFile(n2) ==> n1 == n2
  {
    var f1, f2 := AccountsFile(n1), AccountsFile(n2);
    if f1 == f2 {
      assert |n1| == |n2|;
      assert forall i :: 0 <= i < |n1| ==> n1[i] == f1[i] == f2[i] == n2[i];
    }
  }

  /** The indices of a table are exactly `0 .. len(table) - 1`, each used
      once: the shape registering every new account at `current_index` gives. */
  predicate DenseIndices(table: map<string, AccountRecord>)
  {
    (forall k :: k in table ==> 0 <= table[k].index < |table|)
    && (forall k, l :: k in table && l in table && k != l ==> table[k].index != table[l].index)
  }

  /** Registering a fresh key at the current index keeps the indices dense;
      the counter then grows by exactly one. */
  lemma RegisterAtCurrentIndex(table: map<string, AccountRecord>, pubkey: string, address: string, alias: string)
    requires DenseIndices(table) && pubkey !in table
    ensures |table[pubkey := AccountRecord(address, |table|, alias)]| == |table| + 1
    ensures DenseIndices(table[pubkey := AccountRecord(address, |table|, alias)])
  {
    var next := table[pubkey := AccountRecord(address, |table|, alias)];
    assert next.Keys == table.Keys + {pubkey};
    assert |next| == |table| + 1;
    forall k | k in next
      ensures 0 <= next[k].index < |next|
    {
      if k != pubkey {
        assert next[k] == table[k];
      }
    }
    forall k, l | k in next && l in next && k != l
      ensures next[k].index != next[l].index
    {
      if k != pubkey && l != pubkey {
        assert next[k] == table[k] && next[l] == table[l];
      } else if k == pubkey {
        assert next[l] == table[l];
      } else {
        assert next[k] == table[k];
      }
    }
  }

  /** The accounts files of all networks, by file name, each as the JSON
      object it holds. A missing key is a file that does not exist. */
  class AccountStore {
    var files: map<string, map<string, AccountRecord>>

    /** No accounts file exists yet. */
    constructor()
      ensures files == map[]
    {
      files := map[];
    }

    /** The table of a network; a missing file reads as empty. */
    function Table(network: string): map<string, AccountRecord>
      reads this
    {
      var file := AccountsFile(network);
      if file in files then files[file] else map[]
    }

    /** `load(pubkey, network)` (accounts.py:29-40): creates an empty file
        when there is none, then yields `normalize_number(record)` for the
        key if it is present, and nothing otherwise. */
    method Load(pubkey: string, network: string, normalize: AccountRecord -> AccountRecord)
      returns (found: Option<AccountRecord>)
      modifies this
      ensures found == if pubkey in old(Table(network)) then Some(normalize(old(Table(network))[pubkey])) else None
      ensures files == old(files)[AccountsFile(network) := old(Table(network))]
      ensures Table(network) == old(Table(network))
    {
      var file := AccountsFile(network);
      if file !in files {
        files := files[file := map[]];
      }
      var accounts := files[file];
      found := if pubkey in accounts then Some(normalize(accounts[pubkey])) else None;
    }

    /** `exists(pubkey, network)` (accounts.py:23-26): whether `load` yields
        a record; creates the file as `load` does. */
    method Exists(pubkey: string, network: string, normalize: AccountRecord -> AccountRecord) returns (b: bool)
      modifies this
      ensures b <==> pubkey in old(Table(network))
      ensures files == old(files)[AccountsFile(network) := old(Table(network))]
    {
      var found := Load(pubkey, network, normalize);
      b := found.Some?;
    }

    /** `register(pubkey, address, index, alias, network)` (accounts.py:9-20):
        refused when the key is present, otherwise the key is set to the new
        record and every other key, and every other network, is unchanged. */
    method Register(pubkey: string, address: string, index: int, alias: string, network: string,
                    normalize: AccountRecord -> AccountRecord)
      returns (r: Result<(), AccountError>)
      modifies this
      ensures r.Err? <==> pubkey in old(Table(network))
      ensures r.Err? ==> r == Err(AccountExists) && files == old(files)
      ensures r.Ok? ==> files == old(files)[AccountsFile(network) := old(Table(network))[pubkey := AccountRecord(address, index, alias)]]
      ensures r.Ok? ==> Table(network)[pubkey] == AccountRecord(address, index, alias) && |Table(network)| == |old(Table(network))| + 1
      ensures forall other :: other != network ==> Table(other) == old(Table(other))
    {
      var taken := Exists(pubkey, network, normalize);
      if taken {
        return Err(AccountExists);
      }
      var file := AccountsFile(network);
      var accounts := files[file];
      accounts := accounts[pubkey := AccountRecord(address, index, alias)];
      files := files[file := accounts];
      assert accounts.Keys == old(Table(network)).Keys + {pubkey};
      forall other | other != network
        ensures Table(other) == old(Table(other))
      {
        AccountsFileInjective(network, other);
      }
      r := Ok(());
    }

    /** `current_index(network)` (accounts.py:43-49): the number of keys of
        the network's table; the file must exist. */
    method CurrentIndex(network: string) returns (r: Result<nat, AccountError>)
      ensures AccountsFile(network) in files <==> r.Ok?
      ensures r.Ok? ==> r.value == |Table(network)|
      ensures r.Err? ==> r == Err(FileMissing)
    {
      var file := AccountsFile(network);
      if file !in files {
        return Err(FileMissing);
      }
      r := Ok(|files[file].Keys|);
    }
  }
}
