/** What the database keeps: its well-formedness, its text and its view as a map. */
module ConfigTheorems {
  import opened Base
  import opened ConfigSpec
  import Json = JsonlSpec
  import JsonlTheorems

  // Ports --------------------------------------------------------------------------------

  lemma {:induction false} InsertKeepsOrder(port: nat, ports: seq<nat>)
    requires Sorted(ports)
    ensures Sorted(InsertPort(port, ports))
    ensures multiset(InsertPort(port, ports)) == multiset(ports) + multiset{port}
  {
    if ports != [] && ports[0] < port {
      var rest := InsertPort(port, ports[1..]);
      assert ports == [ports[0]] + ports[1..];
      InsertKeepsOrder(port, ports[1..]);
      assert ([ports[0]] + rest)[1..] == rest;
    } else {
      assert ([port] + ports)[1..] == ports;
    }
  }

  lemma {:induction false} SortIsSorted(ports: seq<nat>)
    ensures Sorted(SortPorts(ports)) && multiset(SortPorts(ports)) == multiset(ports)
  {
    if ports != [] {
      assert ports == [ports[0]] + ports[1..];
      SortIsSorted(ports[1..]);
      InsertKeepsOrder(ports[0], SortPorts(ports[1..]));
    }
  }

  lemma {:induction false} IncreasingStays(ports: seq<nat>)
    requires Increasing(ports)
    ensures SortPorts(ports) == ports && FirstRepeat(ports) == |ports|
  {
    if ports != [] {
      IncreasingStays(ports[1..]);
      assert [ports[0]] + ports[1..] == ports;
    }
  }

  lemma {:induction false} NoRepeatMeansIncreasing(ports: seq<nat>)
    requires Sorted(ports) && FirstRepeat(ports) == |ports|
    ensures Increasing(ports)
  {
    if |ports| >= 2 {
      NoRepeatMeansIncreasing(ports[1..]);
    }
  }

  /** Accepted ports come back sorted; they are the same ports, distinct and in range. */
  lemma AcceptedPortsAreGood(ports: seq<nat>)
    requires ValidatePorts(ports).Ok?
    ensures GoodPorts(ValidatePorts(ports).value) && multiset(ValidatePorts(ports).value) == multiset(ports)
  {
    var sorted := SortPorts(ports);
    SortIsSorted(ports);
    NoRepeatMeansIncreasing(sorted);
  }

  lemma {:induction false} IncreasingPair(ports: seq<nat>, i: nat, j: nat)
    requires Increasing(ports) && i < j < |ports|
    ensures ports[i] < ports[j]
  {
    if i > 0 {
      IncreasingPair(ports[1..], i - 1, j - 1);
    } else if j > 1 {
      IncreasingPair(ports[1..], 0, j - 1);
    }
  }

  lemma IncreasingIsDistinct(ports: seq<nat>)
    requires Increasing(ports)
    ensures Distinct(ports)
  {
    forall i, j | 0 <= i < j < |ports|
      ensures ports[i] != ports[j]
    {
      IncreasingPair(ports, i, j);
    }
  }

  predicate Distinct(ports: seq<nat>) {
    forall i, j | 0 <= i < j < |ports| :: ports[i] != ports[j]
  }

  lemma CountTwice(ports: seq<nat>, i: nat, j: nat)
    requires i < j < |ports| && ports[i] == ports[j]
    ensures multiset(ports)[ports[i]] >= 2
  {
    assert ports == ports[..j] + ports[j..];
    assert ports[i] in ports[..j] && ports[i] in ports[j..];
  }

  lemma {:induction false} CountOnce(ports: seq<nat>, p: nat)
    requires Distinct(ports)
    ensures multiset(ports)[p] <= 1
  {
    if ports != [] {
      var rest := ports[1..];
      assert ports == [ports[0]] + rest;
      CountOnce(rest, p);
      if p == ports[0] {
        assert p !in rest;
      }
    }
  }

  /** Ports are accepted exactly when they are distinct and in range; duplicates are told first. */
  lemma PortsAcceptedExactly(ports: seq<nat>)
    ensures ValidatePorts(ports).Ok? <==> Distinct(ports) && InRange(ports)
    ensures ValidatePorts(ports).Err? && ValidatePorts(ports).error.DuplicatePort? <==> !Distinct(ports)
  {
    var sorted := SortPorts(ports);
    SortIsSorted(ports);
    SameDistinct(ports, sorted);
    if FirstRepeat(sorted) < |sorted| {
      assert sorted[FirstRepeat(sorted)] == sorted[FirstRepeat(sorted) + 1];
      assert !Distinct(sorted);
    } else {
      NoRepeatMeansIncreasing(sorted);
      IncreasingIsDistinct(sorted);
    }
    SameRange(ports, sorted);
    if FirstTooLarge(sorted) < |sorted| {
      assert sorted[FirstTooLarge(sorted)] in sorted;
    }
  }

  lemma SameDistinct(a: seq<nat>, b: seq<nat>)
    requires multiset(a) == multiset(b)
    ensures Distinct(a) <==> Distinct(b)
  {
    if Distinct(a) && !Distinct(b) {
      DuplicateCounts(b, a);
    }
    if Distinct(b) && !Distinct(a) {
      DuplicateCounts(a, b);
    }
  }

  lemma DuplicateCounts(b: seq<nat>, a: seq<nat>)
    requires !Distinct(b) && Distinct(a)
    ensures multiset(a) != multiset(b)
  {
    var i, j :| 0 <= i < j < |b| && b[i] == b[j];
    CountTwice(b, i, j);
    CountOnce(a, b[i]);
  }

  lemma SameRange(a: seq<nat>, b: seq<nat>)
    requires multiset(a) == multiset(b)
    ensures InRange(a) <==> InRange(b)
  {
    assert forall p :: p in a <==> p in multiset(a);
    assert forall p :: p in b <==> p in multiset(b);
  }

  lemma InRangeEach(ports: seq<nat>)
    requires InRange(ports)
    ensures forall i | 0 <= i < |ports| :: ports[i] < MAX_PORT_COUNT
  {
    forall i | 0 <= i < |ports|
      ensures ports[i] < MAX_PORT_COUNT
    {
      assert ports[i] in ports;
    }
  }

  lemma GoodPortsStay(ports: seq<nat>)
    requires GoodPorts(ports)
    ensures ValidatePorts(ports) == Ok(ports)
  {
    IncreasingStays(ports);
    InRangeEach(ports);
  }

  // Addresses ----------------------------------------------------------------------------

  /** Normalizing twice is normalizing once. */
  lemma NormalizeTwice(address: string)
    requires Normalize(address).Ok?
    ensures Normalized(Normalize(address).value)
  {
    var lower := LowerAll(address);
    forall i | 0 <= i < |lower|
      ensures GoodAddressChar(lower, i) && Lower(lower[i]) == lower[i]
    {
      assert GoodAddressChar(address, i);
    }
    assert LowerAll(lower) == lower;
  }

  // Records ------------------------------------------------------------------------------

  lemma ProfileReadsBack(p: Profile)
    ensures ParseProfile(ProfileName(p)) == Ok(p)
  {}

  lemma RecordLookups(c: Config)
    ensures var fields := RecordFields(c);
      RequireString(fields, "address") == Ok(c.address) &&
      RequireString(fields, "profile") == Ok(ProfileName(c.profile)) &&
      RequireNumbers(fields, "ports") == Ok(c.ports)
  {
    var fields := RecordFields(c);
    var second, third := fields[1..], fields[2..];
    assert second[1..] == third && third[1..] == [];
    OneOfEach(fields, "address");
    OneOfEach(fields, "profile");
    OneOfEach(fields, "ports");
  }

  lemma OneOfEach(fields: seq<Json.Field>, key: string)
    requires |fields| == 3
    ensures KeyCount(fields, key) == (if fields[0].key == key then 1 else 0)
      + (if fields[1].key == key then 1 else 0) + (if fields[2].key == key then 1 else 0)
    ensures FirstValue(fields, key) ==
      if fields[0].key == key then Some(fields[0].value) else if fields[1].key == key then Some(fields[1].value)
      else if fields[2].key == key then Some(fields[2].value) else None
  {
    var second, third := fields[1..], fields[2..];
    assert second[1..] == third && third[1..] == [];
    assert KeyCount(third, key) == if fields[2].key == key then 1 else 0;
    assert KeyCount(second, key) == (if fields[1].key == key then 1 else 0) + KeyCount(third, key);
    assert FirstValue(third, key) == if fields[2].key == key then Some(fields[2].value) else None;
    assert FirstValue(second, key) == if fields[1].key == key then Some(fields[1].value) else FirstValue(third, key);
  }

  lemma RecordIsPrintable(c: Config)
    requires GoodConfig(c)
    ensures JsonlTheorems.GoodFields(RecordFields(c))
  {
    var fields := RecordFields(c);
    assert JsonlTheorems.Plain("address") && JsonlTheorems.Plain("profile") && JsonlTheorems.Plain("ports");
    InRangeEach(c.ports);
    assert JsonlTheorems.GoodField(fields[0]) && JsonlTheorems.GoodField(fields[1]) && JsonlTheorems.GoodField(fields[2]);
  }

  /** A good record is read back from its line. */
  lemma RecordReadsBack(c: Config)
    requires GoodConfig(c)
    ensures ParseRecord(PrintRecord(c)) == Ok(c)
  {
    RecordIsPrintable(c);
    JsonlTheorems.ObjectReadsBack(RecordFields(c));
    RecordLookups(c);
    ProfileReadsBack(c.profile);
    GoodPortsStay(c.ports);
  }

  /** Whatever a line holds, a record read from it is good. */
  lemma ReadRecordsAreGood(fields: seq<Json.Field>)
    requires ReadRecord(fields).Ok?
    ensures GoodConfig(ReadRecord(fields).value)
  {
    NormalizeTwice(RequireString(fields, "address").value);
    AcceptedPortsAreGood(RequireNumbers(fields, "ports").value);
  }

  // Lines --------------------------------------------------------------------------------

  predicate OneLine(s: string) {
    forall i | 0 <= i < |s| :: s[i] != '\n'
  }

  lemma {:induction false} EscapedIsOneLine(s: string)
    ensures OneLine(Json.Escape(s))
  {
    if s != "" {
      EscapedIsOneLine(s[1..]);
      assert OneLine(Json.EscapeChar(s[0]));
    }
  }

  lemma {:induction false} DecimalIsOneLine(n: nat)
    ensures OneLine(Json.Decimal(n))
    decreases n
  {
    if n >= 10 {
      DecimalIsOneLine(n / 10);
    }
  }

  lemma {:induction false} NumbersAreOneLine(numbers: seq<nat>)
    ensures OneLine(Json.PrintRest(numbers))
  {
    if numbers != [] {
      DecimalIsOneLine(numbers[0]);
      NumbersAreOneLine(numbers[1..]);
    }
  }

  lemma FieldIsOneLine(f: Json.Field)
    requires OneLine(f.key)
    ensures OneLine(Json.PrintField(f))
  {
    match f.value
    case Text(text) =>
      EscapedIsOneLine(text);
    case Numbers(numbers) =>
      if numbers != [] {
        DecimalIsOneLine(numbers[0]);
        NumbersAreOneLine(numbers[1..]);
      }
  }

  lemma {:induction false} MoreIsOneLine(fields: seq<Json.Field>)
    requires forall i | 0 <= i < |fields| :: OneLine(fields[i].key)
    ensures OneLine(Json.PrintMore(fields))
    ensures Json.PrintMore(fields) != "" && Json.PrintMore(fields)[|Json.PrintMore(fields)| - 1] == '}'
  {
    if fields != [] {
      FieldIsOneLine(fields[0]);
      MoreIsOneLine(fields[1..]);
    }
  }

  /** A record's line has no newline in it and ends with a brace. */
  lemma RecordIsOneLine(c: Config)
    ensures OneLine(PrintRecord(c)) && PrintRecord(c) != "" && StripReturn(PrintRecord(c)) == PrintRecord(c)
  {
    var fields := RecordFields(c);
    assert OneLine(fields[0].key) && OneLine(fields[1].key) && OneLine(fields[2].key);
    FieldIsOneLine(fields[0]);
    MoreIsOneLine(fields[1..]);
    var front, more := "{" + Json.PrintField(fields[0]), Json.PrintMore(fields[1..]);
    assert PrintRecord(c) == front + more;
  }

  // The whole file -----------------------------------------------------------------------

  lemma LineEnds(line: string, rest: string)
    requires OneLine(line)
    ensures LineLength(line + "\n" + rest) == |line|
  {
    var text := line + "\n" + rest;
    assert forall i | 0 <= i < |line| :: text[i] == line[i];
    assert text[|line|] == '\n';
  }

  /** One printed record in front of more text. */
  lemma RecordLineReads(db: seq<Config>, c: Config, rest: string)
    requires GoodConfig(c) && Lookup(db, c.address) == |db|
    ensures ReadLines(db, PrintRecord(c) + "\n" + rest) == ReadLines(db + [c], rest)
  {
    var line := PrintRecord(c);
    var text := line + "\n" + rest;
    RecordIsOneLine(c);
    LineEnds(line, rest);
    assert text[..|line|] == line && text[|line| + 1..] == rest;
    RecordReadsBack(c);
  }

  lemma AssocLine(front: string, line: string, rest: string)
    ensures (front + line + "\n") + rest == front + (line + "\n" + rest)
  {}

  lemma PrintedLast(db: seq<Config>, rest: string)
    requires db != []
    ensures PrintDb(db) + rest == PrintDb(db[..|db| - 1]) + (PrintRecord(db[|db| - 1]) + "\n" + rest)
  {
    AssocLine(PrintDb(db[..|db| - 1]), PrintRecord(db[|db| - 1]), rest);
  }

  lemma {:induction false} PrintedReadsBack(db: seq<Config>, rest: string, text: string)
    requires WellFormed(db) && text == PrintDb(db) + rest
    ensures ReadLines([], text) == ReadLines(db, rest)
    decreases |db|
  {
    if db == [] {
      assert text == rest;
    } else {
      var front, last := db[..|db| - 1], db[|db| - 1];
      PrintedLast(db, rest);
      PrintedReadsBack(front, PrintRecord(last) + "\n" + rest, text);
      SplitLast(db);
      RecordLineReads(front, last, rest);
    }
  }

  /** Printing then parsing is the identity on every well-formed database. */
  lemma DbReadsBack(db: seq<Config>)
    requires WellFormed(db)
    ensures ParseDb(PrintDb(db)) == Ok(db)
  {
    assert PrintDb(db) + "" == PrintDb(db);
    PrintedReadsBack(db, "", PrintDb(db));
  }

  lemma AppendKeeps(db: seq<Config>, c: Config)
    requires WellFormed(db) && GoodConfig(c) && Lookup(db, c.address) == |db|
    ensures WellFormed(db + [c])
  {
    assert (db + [c])[..|db|] == db;
  }

  lemma ReadLineKeeps(db: seq<Config>, line: string)
    requires WellFormed(db) && ReadLine(db, line).Ok?
    ensures WellFormed(ReadLine(db, line).value)
  {
    var stripped := StripReturn(line);
    if stripped != "" {
      ReadRecordsAreGood(Json.ParseObject(stripped).value);
      AppendKeeps(db, ParseRecord(stripped).value);
    }
  }

  lemma ReadLinesStep(db: seq<Config>, text: string, n: nat)
    requires text != "" && n == LineLength(text) && ReadLines(db, text).Ok?
    ensures ReadLine(db, text[..n]).Ok?
    ensures ReadLines(db, text) ==
      if n == |text| then ReadLine(db, text[..n]) else ReadLines(ReadLine(db, text[..n]).value, text[n + 1..])
  {}

  lemma {:induction false} ReadLinesKeep(db: seq<Config>, text: string)
    requires WellFormed(db) && ReadLines(db, text).Ok?
    ensures WellFormed(ReadLines(db, text).value)
    decreases |text|
  {
    if text != "" {
      var n := LineLength(text);
      ReadLinesStep(db, text, n);
      ReadLineKeeps(db, text[..n]);
      if n < |text| {
        ReadLinesKeep(ReadLine(db, text[..n]).value, text[n + 1..]);
      }
    }
  }

  /** Whatever the file holds, a database read from it is well-formed. */
  lemma ParsedIsWellFormed(text: string)
    requires ParseDb(text).Ok?
    ensures WellFormed(ParseDb(text).value)
  {
    ReadLinesKeep([], text);
  }

  // Edits --------------------------------------------------------------------------------

  lemma CheckedIsGood(c: Config)
    requires Checked(c).Ok?
    ensures GoodConfig(Checked(c).value)
  {
    NormalizeTwice(c.address);
    AcceptedPortsAreGood(c.ports);
  }

  lemma {:induction false} LookupInPrefix(db: seq<Config>, address: string)
    requires db != []
    ensures var front := db[..|db| - 1];
      Lookup(db, address) ==
        if Lookup(front, address) < |front| then Lookup(front, address)
        else if db[|db| - 1].address == address then |db| - 1 else |db|
  {
    var front := db[..|db| - 1];
    if |db| > 1 && db[0].address != address {
      assert db[1..][..|db| - 2] == front[1..];
      LookupInPrefix(db[1..], address);
    }
  }

  lemma {:induction false} LookupReplaced(db: seq<Config>, i: nat, c: Config, address: string)
    requires i < |db| && db[i].address == c.address
    ensures Lookup(db[i := c], address) == Lookup(db, address)
  {
    if i > 0 && db[0].address != address {
      assert db[i := c][1..] == db[1..][i - 1 := c];
      LookupReplaced(db[1..], i - 1, c, address);
    } else if i == 0 {
      assert db[0 := c][1..] == db[1..];
    }
  }

  lemma {:induction false} ReplaceKeeps(db: seq<Config>, i: nat, c: Config)
    requires WellFormed(db) && i < |db| && db[i].address == c.address && GoodConfig(c)
    ensures WellFormed(db[i := c])
  {
    var front, last := db[..|db| - 1], db[|db| - 1];
    if i == |db| - 1 {
      assert db[i := c][..|db| - 1] == front;
    } else {
      assert db[i := c][..|db| - 1] == front[i := c];
      ReplaceKeeps(front, i, c);
      LookupReplaced(front, i, c, last.address);
    }
  }

  lemma PutKeeps(db: seq<Config>, c: Config)
    requires WellFormed(db) && GoodConfig(c)
    ensures WellFormed(Put(db, c))
  {
    var i := Lookup(db, c.address);
    if i == |db| {
      AppendKeeps(db, c);
    } else {
      ReplaceKeeps(db, i, c);
    }
  }

  lemma {:induction false} LookupWithout(db: seq<Config>, address: string, other: string)
    requires address == other || Lookup(db, other) == |db|
    ensures Lookup(Without(db, address), other) == |Without(db, address)|
  {
    if db != [] {
      var front, last := db[..|db| - 1], db[|db| - 1];
      LookupInPrefix(db, other);
      LookupWithout(front, address, other);
      if last.address != address {
        LookupInPrefix(Without(front, address) + [last], other);
        assert (Without(front, address) + [last])[..|Without(front, address)|] == Without(front, address);
      }
    }
  }

  lemma {:induction false} WithoutKeeps(db: seq<Config>, address: string)
    requires WellFormed(db)
    ensures WellFormed(Without(db, address))
  {
    if db != [] {
      var front, last := db[..|db| - 1], db[|db| - 1];
      WithoutKeeps(front, address);
      if last.address != address {
        LookupWithout(front, address, last.address);
        AppendKeeps(Without(front, address), last);
      }
    }
  }

  /** No address occurs twice. */
  lemma {:induction false} AddressesAreDistinct(db: seq<Config>, i: nat, j: nat)
    requires WellFormed(db) && i < j < |db|
    ensures db[i].address != db[j].address
  {
    if j < |db| - 1 {
      AddressesAreDistinct(db[..|db| - 1], i, j);
    }
  }

  /** Every accepted edit keeps the database well-formed. */
  lemma EditsKeepWellFormed(db: seq<Config>, e: Edit)
    requires WellFormed(db) && Apply(db, e).Ok?
    ensures WellFormed(Apply(db, e).value)
  {
    match e
    case DoUpsert(config) =>
      CheckedIsGood(config);
      PutKeeps(db, Checked(config).value);
    case DoRemove(address) =>
      WithoutKeeps(db, Normalize(address).value);
  }

  // The map view -------------------------------------------------------------------------

  /** Looking an address up in the list is looking it up in the map. */
  lemma {:induction false} ViewLookup(db: seq<Config>, address: string)
    requires WellFormed(db)
    ensures var i := Lookup(db, address);
      if i < |db| then address in View(db) && View(db)[address] == (db[i].profile, db[i].ports)
      else address !in View(db)
  {
    if db != [] {
      ViewLookup(db[..|db| - 1], address);
      LookupInPrefix(db, address);
    }
  }

  lemma {:induction false} ViewOfReplaced(db: seq<Config>, i: nat, c: Config)
    requires WellFormed(db) && i < |db| && db[i].address == c.address
    ensures View(db[i := c]) == View(db)[c.address := (c.profile, c.ports)]
  {
    var front := db[..|db| - 1];
    if i == |db| - 1 {
      assert db[i := c][..|db| - 1] == front;
    } else {
      AddressesAreDistinct(db, i, |db| - 1);
      assert db[i := c][..|db| - 1] == front[i := c];
      ViewOfReplaced(front, i, c);
    }
  }

  lemma PutView(db: seq<Config>, c: Config)
    requires WellFormed(db)
    ensures View(Put(db, c)) == View(db)[c.address := (c.profile, c.ports)]
  {
    var i := Lookup(db, c.address);
    if i < |db| {
      ViewOfReplaced(db, i, c);
    } else {
      assert (db + [c])[..|db|] == db;
    }
  }

  lemma {:induction false} WithoutView(db: seq<Config>, address: string)
    ensures View(Without(db, address)) == View(db) - {address}
  {
    if db != [] {
      var front, last := db[..|db| - 1], db[|db| - 1];
      WithoutView(front, address);
      if last.address != address {
        assert (Without(front, address) + [last])[..|Without(front, address)|] == Without(front, address);
      }
    }
  }

  /** On the map view an edit is one map update. */
  lemma EditsAreMapUpdates(db: seq<Config>, e: Edit)
    requires WellFormed(db)
    ensures match Apply(db, e)
      case Err(_) => ApplyView(View(db), e) == View(db)
      case Ok(edited) => View(edited) == ApplyView(View(db), e)
  {
    match e
    case DoUpsert(config) =>
      if Checked(config).Ok? { PutView(db, Checked(config).value); }
    case DoRemove(address) =>
      if Normalize(address).Ok? { WithoutView(db, Normalize(address).value); }
  }

  /** A readable file stays readable through any run of updates, and acts as the map does. */
  lemma {:induction false} FileActsAsMap(text: string, edits: seq<Edit>)
    requires ParseDb(text).Ok?
    ensures ParseDb(UpdateFiles(text, edits)).Ok?
    ensures View(ParseDb(UpdateFiles(text, edits)).value) == ApplyViews(View(ParseDb(text).value), edits)
    decreases |edits|
  {
    if edits != [] {
      var db, e := ParseDb(text).value, edits[0];
      ParsedIsWellFormed(text);
      EditsAreMapUpdates(db, e);
      if Apply(db, e).Ok? {
        EditsKeepWellFormed(db, e);
        DbReadsBack(Apply(db, e).value);
      }
      FileActsAsMap(UpdateFile(text, e), edits[1..]);
    }
  }
}
