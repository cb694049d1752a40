/** The deployment and declaration registry (`nile/deployments.py`): one
    append-only text log per network, `<network>.deployments.txt` with lines
    `address:abi[:alias...]` and `<network>.declarations.txt` with lines
    `hash[:alias...]`. Lookups scan the lines in file order and match an
    identifier against the first field or any alias field. */
module Deployments {
  import opened Wrappers
  import opened PyStrings
  import opened Common

  /** One parsed line of a deployments log. */
  datatype Deployment = Deployment(address: string, abi: string, aliases: seq<string>)

  /** One parsed line of a declarations log. */
  datatype Declaration = Declaration(hash: string, aliases: seq<string>)

  /** A run of `load`: the values yielded, in order, and whether the scan
      stopped on a line it could not unpack (Python's `ValueError`). */
  datatype Scan = Scan(yielded: seq<(int, string)>, raised: bool)

  /** Why a registration was refused or a lookup failed. */
  datatype RegistryError = AliasTaken | HashTaken | MalformedLine

  function DeploymentsFile(network: string): string
  {
    network + "." + DEPLOYMENTS_FILENAME
  }

  function DeclarationsFile(network: string): string
  {
    network + "." + DECLARATIONS_FILENAME
  }

  /** A value that can be written as one field of a log line: it holds
      neither the field separator nor a line break (`\n`, or the `\r` that
      reading a file in text mode also ends a line at). */
  predicate IsField(s: string)
  {
    ':' !in s && '\n' !in s && '\r' !in s
  }

  // ---- Line format ----

  /** `[address, abi, *alias] = line.strip().split(":")`; fewer than two
      fields do not unpack. */
  function ParseDeployment(line: string): Option<Deployment>
  {
    var fields := Split(Strip(line), ':');
    if |fields| < 2 then None
    else
      Some(Deployment(fields[0], fields[1], fields[2..]))
  }

  /** `[hash, *alias] = line.strip().split(":")`, which always unpacks. */
  function ParseDeclaration(line: string): Declaration
  {
    var fields := Split(Strip(line), ':');
    Declaration(fields[0], fields[1..])
  }

  /** A deployment line unpacks exactly when its stripped text holds a `:`;
      the fields are then colon-free and join back to the stripped text. */
  lemma ParseDeploymentFields(line: string)
    ensures ParseDeployment(line).Some? <==> ':' in Strip(line)
    ensures ParseDeployment(line).Some? ==>
              var d := ParseDeployment(line).value;
              var fields := [d.address, d.abi] + d.aliases;
              Join(fields, ':') == Strip(line) && forall i :: 0 <= i < |fields| ==> ':' !in fields[i]
  {
    SplitCount(Strip(line), ':');
    SplitHeads(Split(Strip(line), ':'));
  }

  /** A list of at least two fields is its first two followed by the rest. */
  lemma SplitHeads(fields: seq<string>)
    ensures |fields| >= 2 ==> [fields[0], fields[1]] + fields[2..] == fields
  {
  }

  /** A declaration line always unpacks: its colon-free fields join back to
      the stripped text. */
  lemma ParseDeclarationFields(line: string)
    ensures var d := ParseDeclaration(line);
            var fields := [d.hash] + d.aliases;
            Join(fields, ':') == Strip(line) && forall i :: 0 <= i < |fields| ==> ':' !in fields[i]
  {
    var fields := Split(Strip(line), ':');
    assert [fields[0]] + fields[1..] == fields;
  }

  /** The line `register` writes: `address:abi`, then `:alias` when given. */
  function DeploymentLine(address: string, abi: string, alias: Option<string>): string
  {
    address + ":" + abi + (if alias.Some? then ":" + alias.value else "")
  }

  /** The line `register_class_hash` writes: `hash`, then `:alias` when given. */
  function DeclarationLine(hash: string, alias: Option<string>): string
  {
    hash + (if alias.Some? then ":" + alias.value else "")
  }

  function AliasList(alias: Option<string>): seq<string>
  {
    if alias.Some? then [alias.value] else []
  }

  /** The deployment line is its fields joined by `:`. */
  lemma DeploymentLineFields(address: string, abi: string, alias: Option<string>)
    ensures DeploymentLine(address, abi, alias) == Join([address, abi] + AliasList(alias), ':')
  {
    var fields := [address, abi] + AliasList(alias);
    if alias.Some? {
      assert fields[1..][1..] == [alias.value];
      assert Join(fields[1..], ':') == abi + [':'] + alias.value;
    } else {
      assert fields[1..] == [abi];
    }
  }

  /** The declaration line is its fields joined by `:`. */
  lemma DeclarationLineFields(hash: string, alias: Option<string>)
    ensures DeclarationLine(hash, alias) == Join([hash] + AliasList(alias), ':')
  {
    var fields := [hash] + AliasList(alias);
    assert fields[1..] == AliasList(alias);
  }

  /** What `register` can write so that `load` reads it back: fields without
      `:` or line breaks, and no whitespace at the ends of the line (where
      `strip` would remove it). Inner whitespace is kept by `strip`. */
  predicate WritableDeployment(address: string, abi: string, alias: Option<string>)
  {
    IsField(address) && IsField(abi) && (alias.Some? ==> IsField(alias.value))
    && Trimmed(DeploymentLine(address, abi, alias))
  }

  /** The same for `register_class_hash`. */
  predicate WritableDeclaration(hash: string, alias: Option<string>)
  {
    IsField(hash) && (alias.Some? ==> IsField(alias.value)) && Trimmed(DeclarationLine(hash, alias))
  }

  /** Fields joined by `:` into a line with no whitespace at its ends hold no
      line break, and survive `strip().split(":")` unchanged. */
  lemma FieldsLine(fields: seq<string>)
    requires |fields| > 0 && forall i :: 0 <= i < |fields| ==> IsField(fields[i])
    requires Trimmed(Join(fields, ':'))
    ensures '\n' !in Join(fields, ':')
    ensures Split(Strip(Join(fields, ':')), ':') == fields
  {
    JoinExcludes(fields, ':', '\n');
    SplitJoin(fields, ':');
  }

  /** A written deployment line parses back to the same record. */
  lemma ParseDeploymentLine(address: string, abi: string, alias: Option<string>)
    requires WritableDeployment(address, abi, alias)
    ensures '\n' !in DeploymentLine(address, abi, alias)
    ensures ParseDeployment(DeploymentLine(address, abi, alias)) == Some(Deployment(address, abi, AliasList(alias)))
  {
    var fields := [address, abi] + AliasList(alias);
    assert fields[2..] == AliasList(alias);
    DeploymentLineFields(address, abi, alias);
    FieldsLine(fields);
  }

  /** A written declaration line parses back to the same record. */
  lemma ParseDeclarationLine(hash: string, alias: Option<string>)
    requires WritableDeclaration(hash, alias)
    ensures '\n' !in DeclarationLine(hash, alias)
    ensures ParseDeclaration(DeclarationLine(hash, alias)) == Declaration(hash, AliasList(alias))
  {
    var fields := [hash] + AliasList(alias);
    assert fields[1..] == AliasList(alias);
    DeclarationLineFields(hash, alias);
    FieldsLine(fields);
  }

  // ---- Scanning a log ----

  /** The identifier is the address or one of the aliases. */
  predicate Identifies(d: Deployment, id: string)
  {
    id == d.address || id in d.aliases
  }

  /** Every line of a deployments log, unpacked. */
  function ParseDeployments(lines: seq<string>): (records: seq<Option<Deployment>>)
    ensures |records| == |lines|
  {
    seq(|lines|, i requires 0 <= i < |lines| => ParseDeployment(lines[i]))
  }

  /** Every line of a declarations log, unpacked. */
  function ParseDeclarations(lines: seq<string>): (records: seq<Declaration>)
    ensures |records| == |lines|
  {
    seq(|lines|, i requires 0 <= i < |lines| => ParseDeclaration(lines[i]))
  }

  /** What `load(identifier)` yields from these unpacked lines, read in order:
      `(normalize_number(address), abi)` for each matching line, until a line
      that does not unpack stops the scan. */
  function LoadRecords(records: seq<Option<Deployment>>, id: string, normalize: string -> int): (s: Scan)
    ensures |s.yielded| <= |records|
  {
    if records == [] then Scan([], false)
    else
      var prev := LoadRecords(records[..|records| - 1], id, normalize);
      if prev.raised then prev
      else match records[|records| - 1]
        case None => Scan(prev.yielded, true)
        case Some(d) =>
          if Identifies(d, id) then Scan(prev.yielded + [(normalize(d.address), d.abi)], false)
          else prev
  }

  /** What `load_class(identifier)` yields: the hash of each matching line. */
  function LoadClassRecords(records: seq<Declaration>, id: string): (hashes: seq<string>)
    ensures |hashes| <= |records|
  {
    if records == [] then []
    else
      var prev := LoadClassRecords(records[..|records| - 1], id);
      var d := records[|records| - 1];
      if id == d.hash || id in d.aliases then prev + [d.hash] else prev
  }

  /** A longer log only extends what a shorter prefix yielded, and once the
      prefix has stopped on a bad line nothing more is read. */
  lemma {:induction false} LoadRecordsPrefix(records: seq<Option<Deployment>>, j: nat, id: string, normalize: string -> int)
    requires j <= |records|
    ensures LoadRecords(records[..j], id, normalize).yielded <= LoadRecords(records, id, normalize).yielded
    ensures LoadRecords(records[..j], id, normalize).raised ==> LoadRecords(records[..j], id, normalize) == LoadRecords(records, id, normalize)
    decreases |records| - j
  {
    if j < |records| {
      LoadRecordsPrefix(records, j + 1, id, normalize);
      assert records[..j + 1][..j] == records[..j];
    } else {
      assert records[..j] == records;
    }
  }

  /** `hash in load_class(hash, network)` holds exactly when some line's hash
      field is `hash`: a line whose hash field is `hash` always matches, and a
      line matching only through an alias yields a different hash. */
  lemma {:induction false} ClassHashFound(records: seq<Declaration>, hash: string)
    ensures hash in LoadClassRecords(records, hash) <==> exists i :: 0 <= i < |records| && records[i].hash == hash
  {
    if records != [] {
      var init := records[..|records| - 1];
      ClassHashFound(init, hash);
      if exists i :: 0 <= i < |init| && init[i].hash == hash {
        var i :| 0 <= i < |init| && init[i].hash == hash;
        assert records[i] == init[i];
      }
      if exists i :: 0 <= i < |records| && records[i].hash == hash {
        var i :| 0 <= i < |records| && records[i].hash == hash;
        if i < |init| {
          assert init[i] == records[i];
        }
      }
    }
  }

  /** One more line read by `load` after a prefix that did not stop. */
  lemma LoadStep(records: seq<Option<Deployment>>, i: nat, id: string, normalize: string -> int)
    requires i < |records| && !LoadRecords(records[..i], id, normalize).raised
    ensures var prev := LoadRecords(records[..i], id, normalize);
            LoadRecords(records[..i + 1], id, normalize)
            == match records[i]
               case None => Scan(prev.yielded, true)
               case Some(d) => if Identifies(d, id) then Scan(prev.yielded + [(normalize(d.address), d.abi)], false) else prev
  {
    assert records[..i + 1][..i] == records[..i];
  }

  /** One more line read by `load` after a clean, empty prefix. */
  lemma NextRecord(records: seq<Option<Deployment>>, i: nat, id: string, normalize: string -> int)
    requires i < |records| && LoadRecords(records[..i], id, normalize) == Scan([], false)
    ensures var s := LoadRecords(records[..i + 1], id, normalize);
            s.raised == records[i].None?
            && (s.yielded != [] <==> records[i].Some? && Identifies(records[i].value, id))
  {
    assert records[..i + 1][..i] == records[..i];
  }

  lemma ParseDeploymentsAppend(lines: seq<string>, line: string)
    ensures ParseDeployments(lines + [line]) == ParseDeployments(lines) + [ParseDeployment(line)]
  {
    assert forall i :: 0 <= i < |lines| ==> (lines + [line])[i] == lines[i];
  }

  lemma ParseDeclarationsAppend(lines: seq<string>, line: string)
    ensures ParseDeclarations(lines + [line]) == ParseDeclarations(lines) + [ParseDeclaration(line)]
  {
    assert forall i :: 0 <= i < |lines| ==> (lines + [line])[i] == lines[i];
  }

  /** Appending a complete deployment line extends what `load` yields by that
      line's record when it matches, and by nothing otherwise; a scan that had
      already stopped is unaffected. */
  lemma LoadAfterAppend(text: string, address: string, abi: string, alias: Option<string>, id: string, normalize: string -> int)
    requires EndsWithNewline(text)
    requires WritableDeployment(address, abi, alias)
    ensures var before := LoadRecords(ParseDeployments(Lines(text)), id, normalize);
            var after := LoadRecords(ParseDeployments(Lines(text + DeploymentLine(address, abi, alias) + "\n")), id, normalize);
            after == if before.raised then before
                     else if id == address || alias == Some(id) then Scan(before.yielded + [(normalize(address), abi)], false)
                     else before
  {
    var d := Deployment(address, abi, AliasList(alias));
    AppendDeploymentRecord(text, address, abi, alias);
    LoadRecordsSnoc(ParseDeployments(Lines(text)), Some(d), id, normalize);
    IdentifiesWritten(address, abi, alias, id);
  }

  /** How appending one deployment changes every lookup: a lookup that
      already raised still raises, one that the new record matches gains it,
      and any other is unchanged. */
  ghost predicate LoadsAfterAppend(before: seq<Option<Deployment>>, after: seq<Option<Deployment>>,
                                   address: string, abi: string, alias: Option<string>, normalize: string -> int)
  {
    forall id :: var b := LoadRecords(before, id, normalize);
      LoadRecords(after, id, normalize)
      == if b.raised then b
         else if id == address || alias == Some(id) then Scan(b.yielded + [(normalize(address), abi)], false)
         else b
  }

  /** `LoadAfterAppend` for every identifier at once. */
  lemma LoadAfterAppendAll(text: string, address: string, abi: string, alias: Option<string>, normalize: string -> int)
    requires EndsWithNewline(text)
    requires WritableDeployment(address, abi, alias)
    ensures LoadsAfterAppend(ParseDeployments(Lines(text)), ParseDeployments(Lines(text + DeploymentLine(address, abi, alias) + "\n")),
                             address, abi, alias, normalize)
  {
    forall id
      ensures var before := LoadRecords(ParseDeployments(Lines(text)), id, normalize);
              LoadRecords(ParseDeployments(Lines(text + DeploymentLine(address, abi, alias) + "\n")), id, normalize)
              == if before.raised then before
                 else if id == address || alias == Some(id) then Scan(before.yielded + [(normalize(address), abi)], false)
                 else before
    {
      LoadAfterAppend(text, address, abi, alias, id, normalize);
    }
  }

  /** A written record is identified by its address and by its alias. */
  lemma IdentifiesWritten(address: string, abi: string, alias: Option<string>, id: string)
    ensures Identifies(Deployment(address, abi, AliasList(alias)), id) <==> id == address || alias == Some(id)
  {
  }

  /** Appending a written deployment line adds its record to the log. */
  lemma AppendDeploymentRecord(text: string, address: string, abi: string, alias: Option<string>)
    requires EndsWithNewline(text)
    requires WritableDeployment(address, abi, alias)
    ensures ParseDeployments(Lines(text + DeploymentLine(address, abi, alias) + "\n"))
            == ParseDeployments(Lines(text)) + [Some(Deployment(address, abi, AliasList(alias)))]
  {
    var line := DeploymentLine(address, abi, alias);
    ParseDeploymentLine(address, abi, alias);
    AppendLine(text, line);
    ParseDeploymentsAppend(Lines(text), line);
  }

  /** `load` reads one more line after the earlier ones. */
  lemma LoadRecordsSnoc(records: seq<Option<Deployment>>, r: Option<Deployment>, id: string, normalize: string -> int)
    ensures var prev := LoadRecords(records, id, normalize);
            LoadRecords(records + [r], id, normalize)
            == if prev.raised then prev
               else match r
                 case None => Scan(prev.yielded, true)
                 case Some(d) => if Identifies(d, id) then Scan(prev.yielded + [(normalize(d.address), d.abi)], false) else prev
  {
    assert (records + [r])[..|records|] == records;
  }

  /** Appending a complete declaration line extends what `load_class` yields
      by its hash when the identifier is that hash or its alias. */
  lemma LoadClassAfterAppend(text: string, hash: string, alias: Option<string>, id: string)
    requires EndsWithNewline(text)
    requires WritableDeclaration(hash, alias)
    ensures LoadClassRecords(ParseDeclarations(Lines(text + DeclarationLine(hash, alias) + "\n")), id)
            == LoadClassRecords(ParseDeclarations(Lines(text)), id) + (if id == hash || alias == Some(id) then [hash] else [])
  {
    var d := Declaration(hash, AliasList(alias));
    AppendDeclarationRecord(text, hash, alias);
    LoadClassRecordsSnoc(ParseDeclarations(Lines(text)), d, id);
    IdentifiesDeclared(hash, alias, id);
  }

  /** Appending a written declaration line adds its record to the log. */
  lemma AppendDeclarationRecord(text: string, hash: string, alias: Option<string>)
    requires EndsWithNewline(text)
    requires WritableDeclaration(hash, alias)
    ensures ParseDeclarations(Lines(text + DeclarationLine(hash, alias) + "\n"))
            == ParseDeclarations(Lines(text)) + [Declaration(hash, AliasList(alias))]
  {
    var line := DeclarationLine(hash, alias);
    ParseDeclarationLine(hash, alias);
    AppendLine(text, line);
    ParseDeclarationsAppend(Lines(text), line);
  }

  /** A written declaration is found by its hash and by its alias. */
  lemma IdentifiesDeclared(hash: string, alias: Option<string>, id: string)
    ensures (id == hash || id in AliasList(alias)) <==> id == hash || alias == Some(id)
  {
  }

  lemma LoadClassRecordsSnoc(records: seq<Declaration>, d: Declaration, id: string)
    ensures LoadClassRecords(records + [d], id)
            == LoadClassRecords(records, id) + (if id == d.hash || id in d.aliases then [d.hash] else [])
  {
    assert (records + [d])[..|records|] == records;
  }

  lemma SuffixChar(a: string, b: string, k: nat)
    requires 0 < k <= |b|
    ensures (a + b)[|a + b| - k] == b[|b| - k]
  {
  }

  /** Distinct networks never share a log file, and a deployments log is
      never a declarations log. */
  lemma LogFilesDistinct(n1: string, n2: string)
    ensures DeploymentsFile(n1) == DeploymentsFile(n2) ==> n1 == n2
    ensures DeclarationsFile(n1) == DeclarationsFile(n2) ==> n1 == n2
    ensures DeploymentsFile(n1) != DeclarationsFile(n2)
  {
    SuffixChar(n1 + ".", DEPLOYMENTS_FILENAME, 6);
    SuffixChar(n2 + ".", DECLARATIONS_FILENAME, 6);
    var d1, d2 := DeploymentsFile(n1), DeploymentsFile(n2);
    if d1 == d2 {
      assert |n1| == |n2|;
      assert forall i :: 0 <= i < |n1| ==> n1[i] == d1[i] == d2[i] == n2[i];
    }
    var c1, c2 := DeclarationsFile(n1), DeclarationsFile(n2);
    if c1 == c2 {
      assert |n1| == |n2|;
      assert forall i :: 0 <= i < |n1| ==> n1[i] == c1[i] == c2[i] == n2[i];
    }
  }

  /** The log files of all networks, by file name. A missing key is a file
      that does not exist. */
  class Registry {
    var files: map<string, string>

    /** No log file exists yet. */
    constructor()
      ensures files == map[]
    {
      files := map[];
    }

    /** Every log consists of complete lines. */
    predicate Valid()
      reads this
    {
      forall f :: f in files ==> EndsWithNewline(files[f])
    }

    /** The lines of a log; a missing file has none. */
    function LinesOf(file: string): seq<string>
      reads this
    {
      if file in files then Lines(files[file]) else []
    }

    /** The unpacked lines of a network's deployments log. */
    function Deployed(network: string): seq<Option<Deployment>>
      reads this
    {
      ParseDeployments(LinesOf(DeploymentsFile(network)))
    }

    /** The unpacked lines of a network's declarations log. */
    function Declared(network: string): seq<Declaration>
      reads this
    {
      ParseDeclarations(LinesOf(DeclarationsFile(network)))
    }

    /** `load(identifier, network)` (deployments.py:60-72): scans the
        network's deployments log line by line. */
    method Load(id: string, network: string, normalize: string -> int) returns (s: Scan)
      ensures s == LoadRecords(Deployed(network), id, normalize)
      ensures DeploymentsFile(network) !in files ==> s == Scan([], false)
    {
      var file := DeploymentsFile(network);
      if file !in files {
        assert Deployed(network) == [];
        return Scan([], false);
      }
      var lines := Lines(files[file]);
      ghost var records := ParseDeployments(lines);
      assert Deployed(network) == records;
      s := Scan([], false);
      var i := 0;
      while i < |lines|
        invariant 0 <= i <= |lines|
        invariant s == LoadRecords(records[..i], id, normalize)
        invariant !s.raised
      {
        var record := ParseDeployment(lines[i]);
        LoadStep(records, i, id, normalize);
        assert records[i] == record;
        match record
        case None =>
          s := Scan(s.yielded, true);
          LoadRecordsPrefix(records, i + 1, id, normalize);
          return;
        case Some(d) =>
          if Identifies(d, id) {
            s := Scan(s.yielded + [(normalize(d.address), d.abi)], false);
          }
        i := i + 1;
      }
      assert records[..i] == records;
    }

    /** `exists(identifier, network)` (deployments.py:48-51): whether `load`
        yields anything. It stops at the first match, so a bad line after a
        match is never read; a bad line before any match raises. */
    method Exists(id: string, network: string, normalize: string -> int) returns (r: Result<bool, RegistryError>)
      ensures var s := LoadRecords(Deployed(network), id, normalize);
              r == if s.yielded != [] then Ok(true) else if s.raised then Err(MalformedLine) else Ok(false)
    {
      var file := DeploymentsFile(network);
      if file !in files {
        assert Deployed(network) == [];
        return Ok(false);
      }
      var lines := Lines(files[file]);
      ghost var records := ParseDeployments(lines);
      var found, bad := false, false;
      var i := 0;
      while i < |lines| && !found && !bad
        invariant 0 <= i <= |lines|
        invariant var s := LoadRecords(records[..i], id, normalize);
                  s.raised == bad && (s.yielded != [] <==> found) && !(found && bad)
      {
        NextRecord(records, i, id, normalize);
        var record := ParseDeployment(lines[i]);
        assert records[i] == record;
        if record.None? {
          bad := true;
        } else if Identifies(record.value, id) {
          found := true;
        }
        i := i + 1;
      }
      LoadRecordsPrefix(records, i, id, normalize);
      if !found && !bad {
        assert records[..i] == records;
      }
      assert Deployed(network) == records;
      r := if found then Ok(true) else if bad then Err(MalformedLine) else Ok(false);
    }

    /** `load_class(identifier, network)` (deployments.py:75-87). */
    method LoadClass(id: string, network: string) returns (hashes: seq<string>)
      ensures hashes == LoadClassRecords(Declared(network), id)
      ensures DeclarationsFile(network) !in files ==> hashes == []
    {
      var file := DeclarationsFile(network);
      if file !in files {
        return [];
      }
      var lines := Lines(files[file]);
      ghost var records := ParseDeclarations(lines);
      hashes := [];
      for i := 0 to |lines|
        invariant hashes == LoadClassRecords(records[..i], id)
      {
        assert records[..i + 1][..i] == records[..i];
        var d := ParseDeclaration(lines[i]);
        assert records[i] == d;
        if id == d.hash || id in d.aliases {
          hashes := hashes + [d.hash];
        }
      }
      assert records[..|lines|] == records;
    }

    /** `class_hash_exists(hash, network)` (deployments.py:54-57): some line
        of the network's declarations log has `hash` as its hash field. */
    method ClassHashExists(hash: string, network: string) returns (b: bool)
      ensures var records := Declared(network);
              b <==> exists i :: 0 <= i < |records| && records[i].hash == hash
    {
      var hashes := LoadClass(hash, network);
      ClassHashFound(Declared(network), hash);
      b := hash in hashes;
    }
    /** A network's deployments are the unpacked lines of its log's text. */
    lemma DeployedText(network: string)
      ensures var file := DeploymentsFile(network);
              Deployed(network) == ParseDeployments(Lines(if file in files then files[file] else ""))
    {
      if DeploymentsFile(network) !in files {
        assert Lines("") == [];
      }
    }

    /** Once one line is written after `text`, every lookup changes as
        `LoadsAfterAppend` describes. */
    lemma DeployedAfterAppend(network: string, text: string, address: string, abi: string, alias: Option<string>,
                              normalize: string -> int)
      requires DeploymentsFile(network) in files
      requires files[DeploymentsFile(network)] == text + DeploymentLine(address, abi, alias) + "\n"
      requires EndsWithNewline(text)
      requires WritableDeployment(address, abi, alias)
      ensures LoadsAfterAppend(ParseDeployments(Lines(text)), Deployed(network), address, abi, alias, normalize)
    {
      LoadAfterAppendAll(text, address, abi, alias, normalize);
    }

    /** `register(address, abi, network, alias)` (deployments.py:9-26). With
        an alias, the alias must not be found by `load` (as an address or as an
        alias); without one nothing is checked. On success exactly one line is
        appended to this network's deployments log and nothing else changes. */
    method Register(address: string, abi: string, network: string, alias: Option<string>, normalize: string -> int)
      returns (r: Result<(), RegistryError>)
      modifies this
      ensures alias.None? ==> r.Ok?
      ensures alias.Some? ==>
                var s := old(LoadRecords(Deployed(network), alias.value, normalize));
                r == if s.yielded != [] then Err(AliasTaken) else if s.raised then Err(MalformedLine) else Ok(())
      ensures r.Err? ==> files == old(files)
      ensures r.Ok? ==>
                var file := DeploymentsFile(network);
                files == old(files)[file := (if file in old(files) then old(files)[file] else "") + DeploymentLine(address, abi, alias) + "\n"]
      ensures forall other :: other != network ==> Deployed(other) == old(Deployed(other))
      ensures forall other :: Declared(other) == old(Declared(other))
      ensures old(Valid()) ==> Valid()
      ensures r.Ok? && old(Valid()) && WritableDeployment(address, abi, alias) ==>
                LoadsAfterAppend(old(Deployed(network)), Deployed(network), address, abi, alias, normalize)
      ensures r.Ok? && old(Valid()) && WritableDeployment(address, abi, alias) && alias.Some? ==>
                LoadRecords(Deployed(network), alias.value, normalize) == Scan([(normalize(address), abi)], false)
    {
      if alias.Some? {
        var taken := Exists(alias.value, network, normalize);
        match taken
        case Err(e) => return Err(e);
        case Ok(found) =>
          if found {
            return Err(AliasTaken);
          }
      }
      AppendDeployment(address, abi, network, alias, normalize);
      r := Ok(());
    }

    /** Appends the line `register` writes to the network's deployments log
        (deployments.py:23-26), creating the log when it is missing. */
    method AppendDeployment(address: string, abi: string, network: string, alias: Option<string>, normalize: string -> int)
      modifies this
      ensures var file := DeploymentsFile(network);
              files == old(files)[file := (if file in old(files) then old(files)[file] else "") + DeploymentLine(address, abi, alias) + "\n"]
      ensures forall other :: other != network ==> Deployed(other) == old(Deployed(other))
      ensures forall other :: Declared(other) == old(Declared(other))
      ensures old(Valid()) ==> Valid()
      ensures old(Valid()) && WritableDeployment(address, abi, alias) ==>
                LoadsAfterAppend(old(Deployed(network)), Deployed(network), address, abi, alias, normalize)
    {
      var file := DeploymentsFile(network);
      var text := if file in files then files[file] else "";
      DeployedText(network);
      files := files[file := text + DeploymentLine(address, abi, alias) + "\n"];
      forall other
        ensures other != network ==> Deployed(other) == old(Deployed(other))
        ensures Declared(other) == old(Declared(other))
      {
        LogFilesDistinct(network, other);
        LogFilesDistinct(other, network);
      }
      if old(Valid()) && WritableDeployment(address, abi, alias) {
        DeployedAfterAppend(network, text, address, abi, alias, normalize);
      }
    }

    /** `register_class_hash(hash, network, alias)` (deployments.py:29-45):
        refused when some declaration already has this hash, whatever its
        alias; the alias itself is not checked. On success exactly one line is
        appended to this network's declarations log. */
    method RegisterClassHash(hash: string, network: string, alias: Option<string>) returns (r: Result<(), RegistryError>)
      modifies this
      ensures var records := old(Declared(network));
              r.Err? <==> exists i :: 0 <= i < |records| && records[i].hash == hash
      ensures r.Err? ==> r == Err(HashTaken) && files == old(files)
      ensures r.Ok? ==>
                var file := DeclarationsFile(network);
                files == old(files)[file := (if file in old(files) then old(files)[file] else "") + DeclarationLine(hash, alias) + "\n"]
      ensures forall other :: other != network ==> Declared(other) == old(Declared(other))
      ensures forall other :: Deployed(other) == old(Deployed(other))
      ensures old(Valid()) ==> Valid()
      ensures r.Ok? && old(Valid()) && WritableDeclaration(hash, alias) ==>
                forall id :: LoadClassRecords(Declared(network), id)
                             == old(LoadClassRecords(Declared(network), id)) + (if id == hash || alias == Some(id) then [hash] else [])
    {
      var taken := ClassHashExists(hash, network);
      if taken {
        return Err(HashTaken);
      }
      var file := DeclarationsFile(network);
      var text := if file in files then files[file] else "";
      files := files[file := text + DeclarationLine(hash, alias) + "\n"];
      r := Ok(());
      if old(Valid()) && WritableDeclaration(hash, alias) {
        assert old(Declared(network)) == ParseDeclarations(Lines(text));
        forall id
          ensures LoadClassRecords(Declared(network), id)
                  == LoadClassRecords(ParseDeclarations(Lines(text)), id) + (if id == hash || alias == Some(id) then [hash] else [])
        {
          LoadClassAfterAppend(text, hash, alias, id);
        }
      }
      forall other
        ensures other != network ==> Declared(other) == old(Declared(other))
        ensures Deployed(other) == old(Deployed(other))
      {
        LogFilesDistinct(network, other);
        LogFilesDistinct(other, network);
      }
    }
  }
}
