/** The code of src/vds_config.cc; an exception is an `Err` result and a file is its text. */
module ConfigDb {
  import opened Base
  import opened ConfigSpec
  import Json = JsonlSpec
  import Jsonl
  import ConfigTheorems

  // Fields -------------------------------------------------------------------------------

  method FindJsonField(fields: seq<Json.Field>, key: string) returns (r: Result<Option<Json.Value>, Json.Error>)
    ensures match r
      case Err(e) => e == Json.DuplicateField && KeyCount(fields, key) > 1
      case Ok(found) => KeyCount(fields, key) <= 1 && found == FirstValue(fields, key)
  {
    var found: Option<Json.Value> := None;
    var i := 0;
    assert fields[0..] == fields;
    while i < |fields|
      invariant i <= |fields|
      invariant KeyCount(fields, key) == (if found.Some? then 1 else 0) + KeyCount(fields[i..], key)
      invariant FirstValue(fields, key) == if found.Some? then found else FirstValue(fields[i..], key)
    {
      assert fields[i..][1..] == fields[i + 1..];
      if fields[i].key == key {
        if found.Some? {
          return Err(Json.DuplicateField);
        }
        found := Some(fields[i].value);
      }
      i := i + 1;
    }
    r := Ok(found);
  }

  method RequireJsonString(fields: seq<Json.Field>, key: string) returns (r: Result<string, Error>)
    ensures r == RequireString(fields, key)
  {
    var found := FindJsonField(fields, key);
    match found {
      case Err(e) => r := Err(BadRecord(e));
      case Ok(value) =>
        if value.None? {
          r := Err(BadRecord(Json.MissingField));
        } else if value.value.Numbers? {
          r := Err(BadRecord(Json.MustBeString));
        } else {
          r := Ok(value.value.text);
        }
    }
  }

  method RequireJsonNumbers(fields: seq<Json.Field>, key: string) returns (r: Result<seq<nat>, Error>)
    ensures r == RequireNumbers(fields, key)
  {
    var found := FindJsonField(fields, key);
    match found {
      case Err(e) => r := Err(BadRecord(e));
      case Ok(value) =>
        if value.None? {
          r := Err(BadRecord(Json.MissingField));
        } else if !value.value.Numbers? {
          r := Err(BadRecord(Json.MustBeArray));
        } else {
          r := Ok(value.value.numbers);
        }
    }
  }

  method HasUnknownField(fields: seq<Json.Field>) returns (unknown: bool)
    ensures unknown <==> exists i | 0 <= i < |fields| :: !KnownKey(fields[i].key)
  {
    for i := 0 to |fields|
      invariant forall k | 0 <= k < i :: KnownKey(fields[k].key)
    {
      if !KnownKey(fields[i].key) {
        return true;
      }
    }
    unknown := false;
  }

  // Addresses and ports ------------------------------------------------------------------

  method NormalizeAddress(address: string) returns (r: Result<string, Error>)
    ensures r == Normalize(address)
  {
    if |address| != ADDRESS_LENGTH {
      return Err(BadAddress);
    }
    var normalized := "";
    for i := 0 to |address|
      invariant normalized == LowerAll(address[..i])
      invariant forall k | 0 <= k < i :: GoodAddressChar(address, k)
    {
      assert address[..i + 1][..i] == address[..i];
      assert IsSeparator(i) && address[i] == ':' ==> Lower(address[i]) == ':';
      if IsSeparator(i) {
        if address[i] != ':' {
          assert !GoodAddressChar(address, i);
          return Err(BadAddress);
        }
        normalized := normalized + ":";
      } else {
        if !IsHex(address[i]) {
          assert !GoodAddressChar(address, i);
          return Err(BadAddress);
        }
        normalized := normalized + [Lower(address[i])];
      }
    }
    assert address[..|address|] == address;
    r := Ok(normalized);
  }

  method AdjacentFind(ports: seq<nat>) returns (at: nat)
    ensures at == FirstRepeat(ports)
  {
    at := 0;
    assert ports[0..] == ports;
    while at + 1 < |ports| && ports[at] != ports[at + 1]
      invariant at <= |ports| && at + FirstRepeat(ports[at..]) == FirstRepeat(ports)
    {
      assert ports[at..][1..] == ports[at + 1..];
      at := at + 1;
    }
    if at + 1 >= |ports| {
      at := |ports|;
    }
  }

  method CheckPorts(ports: seq<nat>) returns (r: Result<seq<nat>, Error>)
    ensures r == ValidatePorts(ports)
  {
    var sorted := SortPorts(ports);
    var duplicate := AdjacentFind(sorted);
    if duplicate != |sorted| {
      return Err(DuplicatePort(sorted[duplicate]));
    }
    var i := 0;
    assert sorted[0..] == sorted;
    while i < |sorted|
      invariant i <= |sorted| && i + FirstTooLarge(sorted[i..]) == FirstTooLarge(sorted)
    {
      assert sorted[i..][1..] == sorted[i + 1..];
      if sorted[i] >= MAX_PORT_COUNT {
        return Err(PortOutOfRange(sorted[i]));
      }
      i := i + 1;
    }
    r := Ok(sorted);
  }

  // Records ------------------------------------------------------------------------------

  method ReadFields(fields: seq<Json.Field>) returns (r: Result<Config, Error>)
    ensures r == ReadRecord(fields)
  {
    var unknown := HasUnknownField(fields);
    if unknown { return Err(BadRecord(Json.UnknownField)); }
    var address := RequireJsonString(fields, "address");
    if address.Err? { return Err(address.error); }
    var normalized := NormalizeAddress(address.value);
    if normalized.Err? { return Err(normalized.error); }
    var name := RequireJsonString(fields, "profile");
    if name.Err? { return Err(name.error); }
    var profile := ParseProfile(name.value);
    if profile.Err? { return Err(profile.error); }
    var ports := RequireJsonNumbers(fields, "ports");
    if ports.Err? { return Err(ports.error); }
    var sorted := CheckPorts(ports.value);
    if sorted.Err? { return Err(sorted.error); }
    r := Ok(Config(normalized.value, profile.value, sorted.value));
  }

  method ParseControllerLine(line: string) returns (r: Result<Config, Error>)
    ensures r == ParseRecord(line)
  {
    var fields := Jsonl.ParseObjectText(line);
    if fields.Err? { return Err(BadRecord(fields.error)); }
    r := ReadFields(fields.value);
  }

  method RecordText(c: Config) returns (text: string)
    ensures text == PrintRecord(c)
  {
    var address := Jsonl.StringField("address", c.address);
    var profile := Jsonl.StringField("profile", ProfileName(c.profile));
    var ports := Jsonl.NumbersField("ports", c.ports);
    text := "{" + address + "," + profile + "," + ports + "}";
    ThreeFields(RecordFields(c));
  }

  lemma ThreeFields(fields: seq<Json.Field>)
    requires |fields| == 3
    ensures Json.PrintObject(fields) == "{" + Json.PrintField(fields[0]) + "," + Json.PrintField(fields[1]) + ","
                                      + Json.PrintField(fields[2]) + "}"
  {
    var a, b, c := Json.PrintField(fields[0]), Json.PrintField(fields[1]), Json.PrintField(fields[2]);
    var second, third := fields[1..], fields[2..];
    assert second[1..] == third && third[1..] == [];
    assert Json.PrintMore(third) == "," + c + "}";
    assert Json.PrintMore(second) == "," + b + ("," + c + "}");
    JoinThree(a, b, c);
  }

  lemma JoinThree(a: string, b: string, c: string)
    ensures "{" + a + ("," + b + ("," + c + "}")) == "{" + a + "," + b + "," + c + "}"
  {}

  // The database -------------------------------------------------------------------------

  lemma LineStep(db: seq<Config>, text: string, offset: nat, end: nat)
    requires offset < |text| && end == offset + LineLength(text[offset..])
    ensures end <= |text|
    ensures ReadLines(db, text[offset..]) ==
      match ReadLine(db, text[offset..end])
      case Err(e) => Err(e)
      case Ok(more) => ReadLines(more, text[if end == |text| then end else end + 1..])
  {
    var rest := text[offset..];
    assert rest[..end - offset] == text[offset..end];
    if end < |text| {
      assert rest[end - offset + 1..] == text[end + 1..];
    } else {
      assert text[end..] == "";
    }
  }

  class Database {
    var controllers: seq<Config>

    ghost predicate Valid()
      reads this
    {
      WellFormed(controllers)
    }

    constructor ()
      ensures Valid() && controllers == []
    {
      controllers := [];
    }

    /** Reads a file's text; on an error nothing is stored. */
    method Load(text: string) returns (error: Option<Error>)
      modifies this
      ensures match ParseDb(text)
        case Err(e) => error == Some(e) && controllers == old(controllers)
        case Ok(db) => error == None && controllers == db && Valid()
    {
      var parsed := ParseText(text);
      if parsed.Err? { return Some(parsed.error); }
      ConfigTheorems.ParsedIsWellFormed(text);
      controllers := parsed.value;
      error := None;
    }

    static method ParseText(text: string) returns (r: Result<seq<Config>, Error>)
      ensures r == ParseDb(text)
    {
      var db: seq<Config> := [];
      var offset := 0;
      assert text[0..] == text;
      while offset < |text|
        invariant offset <= |text| && ReadLines(db, text[offset..]) == ParseDb(text)
        decreases |text| - offset
      {
        var end := LineEnd(text, offset);
        LineStep(db, text, offset, end);
        var added := AddLine(db, text[offset..end]);
        if added.Err? {
          return Err(added.error);
        }
        db := added.value;
        offset := if end == |text| then end else end + 1;
      }
      r := Ok(db);
    }

    static method LineEnd(text: string, offset: nat) returns (end: nat)
      requires offset <= |text|
      ensures end == offset + LineLength(text[offset..])
    {
      end := offset;
      while end < |text| && text[end] != '\n'
        invariant offset <= end <= |text| && end + LineLength(text[end..]) == offset + LineLength(text[offset..])
      {
        assert text[end..][1..] == text[end + 1..];
        end := end + 1;
      }
    }

    static method AddLine(db: seq<Config>, raw: string) returns (r: Result<seq<Config>, Error>)
      ensures r == ReadLine(db, raw)
    {
      var line := raw;
      if line != "" && line[|line| - 1] == '\r' {
        line := line[..|line| - 1];
      }
      if line == "" {
        return Ok(db);
      }
      var config := ParseControllerLine(line);
      if config.Err? {
        return Err(config.error);
      }
      var duplicate := FindIf(db, config.value.address);
      r := if duplicate != |db| then Err(DuplicateAddress) else Ok(db + [config.value]);
    }

    static method FindIf(db: seq<Config>, address: string) returns (at: nat)
      ensures at == Lookup(db, address)
    {
      at := 0;
      assert db[0..] == db;
      while at < |db| && db[at].address != address
        invariant at <= |db| && at + Lookup(db[at..], address) == Lookup(db, address)
      {
        assert db[at..][1..] == db[at + 1..];
        at := at + 1;
      }
    }

    method Serialize() returns (text: string)
      requires Valid()
      ensures text == PrintDb(controllers) && ParseDb(text) == Ok(controllers)
    {
      text := "";
      for i := 0 to |controllers|
        invariant text == PrintDb(controllers[..i])
      {
        assert controllers[..i + 1][..i] == controllers[..i];
        var record := RecordText(controllers[i]);
        text := text + record + "\n";
      }
      assert controllers[..|controllers|] == controllers;
      ConfigTheorems.DbReadsBack(controllers);
    }

    method UpsertConfig(config: Config) returns (error: Option<Error>)
      requires Valid()
      modifies this
      ensures Valid()
      ensures match Upsert(old(controllers), config)
        case Err(e) => error == Some(e) && controllers == old(controllers)
        case Ok(db) => error == None && controllers == db
      ensures View(controllers) == ApplyView(View(old(controllers)), DoUpsert(config))
    {
      ConfigTheorems.EditsAreMapUpdates(controllers, DoUpsert(config));
      if Checked(config).Ok? { ConfigTheorems.EditsKeepWellFormed(controllers, DoUpsert(config)); }
      var address := NormalizeAddress(config.address);
      if address.Err? { return Some(address.error); }
      var ports := CheckPorts(config.ports);
      if ports.Err? { return Some(ports.error); }
      var checked := Config(address.value, config.profile, ports.value);
      var at := FindIf(controllers, checked.address);
      controllers := if at < |controllers| then controllers[at := checked] else controllers + [checked];
      error := None;
    }

    method RemoveConfig(address: string) returns (r: Result<bool, Error>)
      requires Valid()
      modifies this
      ensures Valid()
      ensures match Remove(old(controllers), address)
        case Err(e) => r == Err(e) && controllers == old(controllers)
        case Ok(db) => controllers == db && r == Ok(|db| != |old(controllers)|)
      ensures View(controllers) == ApplyView(View(old(controllers)), DoRemove(address))
    {
      ConfigTheorems.EditsAreMapUpdates(controllers, DoRemove(address));
      if Normalize(address).Ok? { ConfigTheorems.EditsKeepWellFormed(controllers, DoRemove(address)); }
      var normalized := NormalizeAddress(address);
      if normalized.Err? { return Err(normalized.error); }
      var kept := Drop(controllers, normalized.value);
      var oldSize := |controllers|;
      controllers := kept;
      r := Ok(|controllers| != oldSize);
    }

    static method Drop(db: seq<Config>, address: string) returns (kept: seq<Config>)
      ensures kept == Without(db, address)
    {
      kept := [];
      for i := 0 to |db|
        invariant kept == Without(db[..i], address)
      {
        assert db[..i + 1][..i] == db[..i];
        if db[i].address != address {
          kept := kept + [db[i]];
        }
      }
      assert db[..|db|] == db;
    }
  }

  /** One update of the file, as the program makes it. */
  method Update(text: string, e: Edit) returns (updated: string)
    ensures updated == UpdateFile(text, e)
  {
    var db := new Database();
    var failure := db.Load(text);
    if failure.Some? { return text; }
    match e {
      case DoUpsert(config) =>
        failure := db.UpsertConfig(config);
        if failure.Some? { return text; }
      case DoRemove(address) =>
        var removed := db.RemoveConfig(address);
        if removed.Err? { return text; }
    }
    updated := db.Serialize();
  }
}
