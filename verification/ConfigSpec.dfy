/** The controller database of src/vds_config.cc: records, their lines and what may be done to them. */
module ConfigSpec {
  import opened Base
  import Json = JsonlSpec

  const MAX_PORT_COUNT := 4
  const ADDRESS_LENGTH := 17

  datatype Profile = Unspecified | Ds5 | Dse

  datatype Config = Config(address: string, profile: Profile, ports: seq<nat>)

  datatype Error =
    | BadAddress | BadProfile | DuplicatePort(port: nat) | PortOutOfRange(port: nat)
    | BadRecord(error: Json.Error) | DuplicateAddress

  // Addresses and profiles ---------------------------------------------------------------

  predicate IsHex(c: char) {
    '0' <= c <= '9' || 'a' <= c <= 'f' || 'A' <= c <= 'F'
  }

  function Lower(c: char): char {
    if 'A' <= c <= 'Z' then c + ' ' else c
  }

  predicate IsSeparator(i: nat) {
    i == 2 || i == 5 || i == 8 || i == 11 || i == 14
  }

  predicate GoodAddressChar(address: string, i: nat)
    requires i < |address|
  {
    if IsSeparator(i) then address[i] == ':' else IsHex(address[i])
  }

  predicate GoodAddress(address: string) {
    |address| == ADDRESS_LENGTH && forall i | 0 <= i < |address| :: GoodAddressChar(address, i)
  }

  function LowerAll(s: string): (lower: string)
    ensures |lower| == |s| && forall i | 0 <= i < |s| :: lower[i] == Lower(s[i])
  {
    if s == "" then "" else LowerAll(s[..|s| - 1]) + [Lower(s[|s| - 1])]
  }

  function Normalize(address: string): Result<string, Error> {
    if GoodAddress(address) then Ok(LowerAll(address)) else Err(BadAddress)
  }

  predicate Normalized(address: string) {
    Normalize(address) == Ok(address)
  }

  function ParseProfile(name: string): Result<Profile, Error> {
    if name == "" then Ok(Unspecified)
    else if name == "ds5" then Ok(Ds5)
    else if name == "dse" then Ok(Dse)
    else Err(BadProfile)
  }

  function ProfileName(profile: Profile): string {
    match profile case Unspecified => "" case Ds5 => "ds5" case Dse => "dse"
  }

  // Ports --------------------------------------------------------------------------------

  predicate Sorted(ports: seq<nat>) {
    |ports| < 2 || (ports[0] <= ports[1] && Sorted(ports[1..]))
  }

  predicate Increasing(ports: seq<nat>) {
    |ports| < 2 || (ports[0] < ports[1] && Increasing(ports[1..]))
  }

  predicate InRange(ports: seq<nat>) {
    forall p | p in ports :: p < MAX_PORT_COUNT
  }

  predicate GoodPorts(ports: seq<nat>) {
    Increasing(ports) && InRange(ports)
  }

  function InsertPort(port: nat, ports: seq<nat>): seq<nat> {
    if ports == [] || port <= ports[0] then [port] + ports else [ports[0]] + InsertPort(port, ports[1..])
  }

  function SortPorts(ports: seq<nat>): seq<nat> {
    if ports == [] then [] else InsertPort(ports[0], SortPorts(ports[1..]))
  }

  /** The first of two equal neighbours, or the length. */
  function FirstRepeat(ports: seq<nat>): (i: nat)
    ensures i <= |ports|
    ensures i < |ports| ==> i + 1 < |ports| && ports[i] == ports[i + 1]
    ensures forall k | 0 <= k < i && k + 1 < |ports| :: ports[k] != ports[k + 1]
  {
    if |ports| < 2 then |ports| else if ports[0] == ports[1] then 0 else 1 + FirstRepeat(ports[1..])
  }

  function FirstTooLarge(ports: seq<nat>): (i: nat)
    ensures i <= |ports|
    ensures i < |ports| ==> ports[i] >= MAX_PORT_COUNT
    ensures forall k | 0 <= k < i :: ports[k] < MAX_PORT_COUNT
  {
    if ports == [] || ports[0] >= MAX_PORT_COUNT then 0 else 1 + FirstTooLarge(ports[1..])
  }

  /** Sorted ports, or the first complaint; duplicates are looked for first. */
  function ValidatePorts(ports: seq<nat>): Result<seq<nat>, Error> {
    var sorted := SortPorts(ports);
    var repeat, large := FirstRepeat(sorted), FirstTooLarge(sorted);
    if repeat < |sorted| then Err(DuplicatePort(sorted[repeat]))
    else if large < |sorted| then Err(PortOutOfRange(sorted[large]))
    else Ok(sorted)
  }

  // Records ------------------------------------------------------------------------------

  function KeyCount(fields: seq<Json.Field>, key: string): nat {
    if fields == [] then 0 else (if fields[0].key == key then 1 else 0) + KeyCount(fields[1..], key)
  }

  function FirstValue(fields: seq<Json.Field>, key: string): Option<Json.Value> {
    if fields == [] then None
    else if fields[0].key == key then Some(fields[0].value)
    else FirstValue(fields[1..], key)
  }

  /** The one field called `key`; a second one is an error. */
  function FindField(fields: seq<Json.Field>, key: string): Result<Json.Value, Json.Error> {
    if KeyCount(fields, key) > 1 then Err(Json.DuplicateField)
    else match FirstValue(fields, key) case None => Err(Json.MissingField) case Some(v) => Ok(v)
  }

  function RequireString(fields: seq<Json.Field>, key: string): Result<string, Error> {
    match FindField(fields, key)
    case Err(e) => Err(BadRecord(e))
    case Ok(v) => if v.Numbers? then Err(BadRecord(Json.MustBeString)) else Ok(v.text)
  }

  function RequireNumbers(fields: seq<Json.Field>, key: string): Result<seq<nat>, Error> {
    match FindField(fields, key)
    case Err(e) => Err(BadRecord(e))
    case Ok(v) => if !v.Numbers? then Err(BadRecord(Json.MustBeArray)) else Ok(v.numbers)
  }

  predicate KnownKey(key: string) {
    key == "address" || key == "profile" || key == "ports"
  }

  function RecordFields(c: Config): seq<Json.Field> {
    [Json.Field("address", Json.Text(c.address)),
     Json.Field("profile", Json.Text(ProfileName(c.profile))),
     Json.Field("ports", Json.Numbers(c.ports))]
  }

  /** A record's line, without its newline. */
  function PrintRecord(c: Config): string {
    Json.PrintObject(RecordFields(c))
  }

  function ReadRecord(fields: seq<Json.Field>): Result<Config, Error> {
    if exists i | 0 <= i < |fields| :: !KnownKey(fields[i].key) then Err(BadRecord(Json.UnknownField))
    else
      match RequireString(fields, "address")
      case Err(e) => Err(e)
      case Ok(address) =>
        match Normalize(address)
        case Err(e) => Err(e)
        case Ok(normalized) =>
          match RequireString(fields, "profile")
          case Err(e) => Err(e)
          case Ok(name) =>
            match ParseProfile(name)
            case Err(e) => Err(e)
            case Ok(profile) =>
              match RequireNumbers(fields, "ports")
              case Err(e) => Err(e)
              case Ok(ports) =>
                match ValidatePorts(ports)
                case Err(e) => Err(e)
                case Ok(sorted) => Ok(Config(normalized, profile, sorted))
  }

  function ParseRecord(line: string): Result<Config, Error> {
    match Json.ParseObject(line)
    case Failed(e) => Err(BadRecord(e))
    case Got(fields, _) => ReadRecord(fields)
  }

  // The database -------------------------------------------------------------------------

  predicate GoodConfig(c: Config) {
    Normalized(c.address) && GoodPorts(c.ports)
  }

  /** The position of the record for a normalized address, or the length. */
  function Lookup(db: seq<Config>, address: string): (i: nat)
    ensures i <= |db|
    ensures i < |db| ==> db[i].address == address
    ensures forall k | 0 <= k < i :: db[k].address != address
  {
    if db == [] || db[0].address == address then 0 else 1 + Lookup(db[1..], address)
  }

  /** Good records, no address twice. */
  predicate WellFormed(db: seq<Config>) {
    db == [] || (WellFormed(db[..|db| - 1]) && GoodConfig(db[|db| - 1])
                 && Lookup(db[..|db| - 1], db[|db| - 1].address) == |db| - 1)
  }

  function Checked(c: Config): Result<Config, Error> {
    match Normalize(c.address)
    case Err(e) => Err(e)
    case Ok(address) =>
      match ValidatePorts(c.ports)
      case Err(e) => Err(e)
      case Ok(ports) => Ok(Config(address, c.profile, ports))
  }

  /** A record takes the place of the one with its address, or goes to the end. */
  function Put(db: seq<Config>, c: Config): seq<Config> {
    var i := Lookup(db, c.address);
    if i < |db| then db[i := c] else db + [c]
  }

  function Upsert(db: seq<Config>, c: Config): Result<seq<Config>, Error> {
    match Checked(c) case Err(e) => Err(e) case Ok(checked) => Ok(Put(db, checked))
  }

  function Without(db: seq<Config>, address: string): seq<Config> {
    if db == [] then []
    else if db[|db| - 1].address == address then Without(db[..|db| - 1], address)
    else Without(db[..|db| - 1], address) + [db[|db| - 1]]
  }

  function Remove(db: seq<Config>, address: string): Result<seq<Config>, Error> {
    match Normalize(address) case Err(e) => Err(e) case Ok(normalized) => Ok(Without(db, normalized))
  }

  // The file -----------------------------------------------------------------------------

  function PrintDb(db: seq<Config>): string {
    if db == [] then "" else PrintDb(db[..|db| - 1]) + PrintRecord(db[|db| - 1]) + "\n"
  }

  /** The length of the first line. */
  function LineLength(text: string): (n: nat)
    ensures n <= |text|
    ensures n < |text| ==> text[n] == '\n'
    ensures forall i | 0 <= i < n :: text[i] != '\n'
  {
    if text == "" || text[0] == '\n' then 0 else 1 + LineLength(text[1..])
  }

  function StripReturn(line: string): string {
    if line != "" && line[|line| - 1] == '\r' then line[..|line| - 1] else line
  }

  /** A line's effect on the records read so far. */
  function ReadLine(db: seq<Config>, raw: string): Result<seq<Config>, Error> {
    var line := StripReturn(raw);
    if line == "" then Ok(db)
    else
      match ParseRecord(line)
      case Err(e) => Err(e)
      case Ok(c) => if Lookup(db, c.address) < |db| then Err(DuplicateAddress) else Ok(db + [c])
  }

  function ReadLines(db: seq<Config>, text: string): Result<seq<Config>, Error>
    decreases |text|
  {
    if text == "" then Ok(db)
    else
      var n := LineLength(text);
      match ReadLine(db, text[..n])
      case Err(e) => Err(e)
      case Ok(more) => if n == |text| then Ok(more) else ReadLines(more, text[n + 1..])
  }

  function ParseDb(text: string): Result<seq<Config>, Error> {
    ReadLines([], text)
  }

  // Edits --------------------------------------------------------------------------------

  datatype Edit = DoUpsert(config: Config) | DoRemove(address: string)

  function Apply(db: seq<Config>, e: Edit): Result<seq<Config>, Error> {
    match e case DoUpsert(config) => Upsert(db, config) case DoRemove(address) => Remove(db, address)
  }

  /** One update of the file: read, edit, write back. A failure leaves the file alone. */
  function UpdateFile(text: string, e: Edit): string {
    match ParseDb(text)
    case Err(_) => text
    case Ok(db) => match Apply(db, e) case Err(_) => text case Ok(edited) => PrintDb(edited)
  }

  function UpdateFiles(text: string, edits: seq<Edit>): string
    decreases |edits|
  {
    if edits == [] then text else UpdateFiles(UpdateFile(text, edits[0]), edits[1..])
  }

  /** The database as a map from addresses. */
  function View(db: seq<Config>): map<string, (Profile, seq<nat>)> {
    if db == [] then map[]
    else View(db[..|db| - 1])[db[|db| - 1].address := (db[|db| - 1].profile, db[|db| - 1].ports)]
  }

  /** The same edit on a map; rejected edits do nothing. */
  function ApplyView(m: map<string, (Profile, seq<nat>)>, e: Edit): map<string, (Profile, seq<nat>)> {
    match e
    case DoUpsert(config) =>
      (match Checked(config) case Err(_) => m case Ok(c) => m[c.address := (c.profile, c.ports)])
    case DoRemove(address) =>
      (match Normalize(address) case Err(_) => m case Ok(normalized) => m - {normalized})
  }

  function ApplyViews(m: map<string, (Profile, seq<nat>)>, edits: seq<Edit>): map<string, (Profile, seq<nat>)>
    decreases |edits|
  {
    if edits == [] then m else ApplyViews(ApplyView(m, edits[0]), edits[1..])
  }
}
