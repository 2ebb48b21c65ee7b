/** What stands in the database file: normalized addresses and the text of a record, character by character. */
module ConfigText {
  import opened Base
  import opened ConfigSpec
  import opened ConfigTheorems
  import Json = JsonlSpec

  // Addresses ------------------------------------------------------------------------------

  predicate Hexadecimal(c: char) {
    '0' <= c <= '9' || 'a' <= c <= 'f' || 'A' <= c <= 'F'
  }

  /** Six pairs of hexadecimal digits with colons between them. */
  predicate IsAddress(address: string) {
    && |address| == 17
    && forall i | 0 <= i < 17 :: if i % 3 == 2 then address[i] == ':' else Hexadecimal(address[i])
  }

  /** The character with capital letters made small. */
  function Small(c: char): char {
    if 'A' <= c <= 'F' then (c as int + 32) as char else c
  }

  predicate IsSmallOf(small: string, address: string) {
    |small| == |address| && forall i | 0 <= i < |small| :: small[i] == Small(address[i])
  }

  lemma SeparatorsAre(i: nat)
    requires i < 17
    ensures IsSeparator(i) <==> i % 3 == 2
  {
  }

  lemma AddressIsGood(address: string)
    ensures GoodAddress(address) <==> IsAddress(address)
  {
    forall i | 0 <= i < 17
      ensures IsSeparator(i) <==> i % 3 == 2
    {
      SeparatorsAre(i);
    }
    if GoodAddress(address) {
      forall i | 0 <= i < 17
        ensures if i % 3 == 2 then address[i] == ':' else Hexadecimal(address[i])
      {
        assert GoodAddressChar(address, i);
      }
    }
    if IsAddress(address) {
      forall i | 0 <= i < |address|
        ensures GoodAddressChar(address, i)
      {
      }
    }
  }

  /** Exactly the addresses are accepted, and their letters are made small. */
  lemma NormalizeIsExact(address: string)
    ensures Normalize(address).Ok? <==> IsAddress(address)
    ensures Normalize(address).Ok? ==> IsSmallOf(Normalize(address).value, address)
  {
    AddressIsGood(address);
    if IsAddress(address) {
      var small := LowerAll(address);
      forall i | 0 <= i < |small|
        ensures small[i] == Small(address[i])
      {
        assert small[i] == Lower(address[i]) && GoodAddressChar(address, i);
      }
    }
  }

  // Records --------------------------------------------------------------------------------

  function NameOf(profile: Profile): string {
    match profile case Unspecified => "" case Ds5 => "ds5" case Dse => "dse"
  }

  function PortDigit(port: nat): string
    requires port < 10
  {
    [(48 + port) as char]
  }

  predicate OneDigitPorts(ports: seq<nat>) { forall i | 0 <= i < |ports| :: ports[i] < 10 }

  /** The ports with commas between them. */
  function PortList(ports: seq<nat>): string
    requires OneDigitPorts(ports)
  {
    if ports == [] then ""
    else if |ports| == 1 then PortDigit(ports[0])
    else PortDigit(ports[0]) + ("," + PortList(ports[1..]))
  }

  lemma {:induction false} PlainStays(s: string)
    requires forall i | 0 <= i < |s| :: s[i] == ':' || Hexadecimal(s[i])
    ensures Json.Escape(s) == s
  {
    if s != "" {
      PlainStays(s[1..]);
      assert Json.EscapeChar(s[0]) == [s[0]];
      assert [s[0]] + s[1..] == s;
    }
  }

  lemma AddressStays(address: string)
    requires Normalized(address)
    ensures Json.Escape(address) == address
  {
    AddressIsGood(address);
    forall i | 0 <= i < |address|
      ensures address[i] == ':' || Hexadecimal(address[i])
    {
      assert i % 3 == 2 || Hexadecimal(address[i]);
    }
    PlainStays(address);
  }

  lemma NameStays(profile: Profile)
    ensures ProfileName(profile) == NameOf(profile) && Json.Escape(NameOf(profile)) == NameOf(profile)
  {
    var name := NameOf(profile);
    if name != "" {
      assert name[1..][1..][1..] == "";
      assert Json.Escape(name[1..][1..][1..]) == "";
      assert Json.Escape(name[1..][1..]) == name[1..][1..];
      assert Json.Escape(name[1..]) == name[1..];
    }
  }

  lemma DigitIs(port: nat)
    requires port < 10
    ensures Json.Decimal(port) == PortDigit(port)
  {
  }

  lemma ListParts(digit: string, more: string)
    ensures (("," + digit) + ("," + (more + "]"))) == "," + ((digit + ("," + more)) + "]")
    ensures (("[" + digit) + ("," + (more + "]"))) == "[" + ((digit + ("," + more)) + "]")
  {
  }

  lemma {:induction false} RestIs(ports: seq<nat>)
    requires OneDigitPorts(ports)
    ensures Json.PrintRest(ports) == (if ports == [] then "]" else "," + (PortList(ports) + "]"))
  {
    if ports != [] {
      RestIs(ports[1..]);
      DigitIs(ports[0]);
      if |ports| > 1 { ListParts(PortDigit(ports[0]), PortList(ports[1..])); }
    }
  }

  lemma NumbersAre(ports: seq<nat>)
    requires OneDigitPorts(ports)
    ensures Json.PrintNumbers(ports) == "[" + (PortList(ports) + "]")
  {
    if ports != [] {
      RestIs(ports[1..]);
      DigitIs(ports[0]);
      if |ports| > 1 { ListParts(PortDigit(ports[0]), PortList(ports[1..])); }
    }
  }

  function Line(address: string, profile: string, ports: string): string {
    "{" + (address + ("," + (profile + ("," + (ports + "}")))))
  }

  lemma LineParts(a: string, p: string, l: string)
    ensures ("{" + a) + (("," + p) + (("," + l) + "}")) == Line(a, p, l)
  {
  }

  lemma ThreeFields(fields: seq<Json.Field>)
    requires |fields| == 3
    ensures Json.PrintObject(fields)
         == Line(Json.PrintField(fields[0]), Json.PrintField(fields[1]), Json.PrintField(fields[2]))
  {
    var two, one := fields[1..], fields[2..];
    assert two[1..] == one && one[1..] == [];
    assert Json.PrintMore([]) == "}";
    assert Json.PrintMore(one) == ("," + Json.PrintField(fields[2])) + "}";
    assert Json.PrintMore(two) == ("," + Json.PrintField(fields[1])) + Json.PrintMore(one);
    LineParts(Json.PrintField(fields[0]), Json.PrintField(fields[1]), Json.PrintField(fields[2]));
  }

  lemma QuotedIs(s: string)
    requires Json.Escape(s) == s
    ensures Json.PrintString(s) == "\"" + (s + "\"")
  {
  }

  lemma FieldTexts(v: Json.Value)
    ensures Json.PrintField(Json.Field("address", v)) == "\"address\":" + Json.PrintValue(v)
    ensures Json.PrintField(Json.Field("profile", v)) == "\"profile\":" + Json.PrintValue(v)
    ensures Json.PrintField(Json.Field("ports", v)) == "\"ports\":" + Json.PrintValue(v)
  {
    assert "\"" + "address" + "\":" == "\"address\":";
    assert "\"" + "profile" + "\":" == "\"profile\":";
    assert "\"" + "ports" + "\":" == "\"ports\":";
  }

  /** A record's line, from the first brace to the last. */
  lemma RecordLine(c: Config)
    requires GoodConfig(c)
    ensures OneDigitPorts(c.ports)
    ensures PrintRecord(c) == Line(
      "\"address\":" + ("\"" + (c.address + "\"")),
      "\"profile\":" + ("\"" + (NameOf(c.profile) + "\"")),
      "\"ports\":" + ("[" + (PortList(c.ports) + "]")))
  {
    InRangeEach(c.ports);
    AddressStays(c.address);
    NameStays(c.profile);
    NumbersAre(c.ports);
    QuotedIs(c.address);
    QuotedIs(NameOf(c.profile));
    FieldTexts(Json.Text(c.address));
    FieldTexts(Json.Text(NameOf(c.profile)));
    FieldTexts(Json.Numbers(c.ports));
    ThreeFields(RecordFields(c));
  }

  // Reading a record -----------------------------------------------------------------------

  /** The value is the text of an address. */
  predicate AddressValue(f: Json.Field) {
    f.key == "address" && f.value.Text? && IsAddress(f.value.text)
  }

  predicate ProfileValue(f: Json.Field) {
    f.key == "profile" && f.value.Text? && (f.value.text == "" || f.value.text == "ds5" || f.value.text == "dse")
  }

  /** Distinct port numbers, none above three. */
  predicate PortsValue(f: Json.Field) {
    && f.key == "ports" && f.value.Numbers? && Distinct(f.value.numbers)
    && forall i | 0 <= i < |f.value.numbers| :: f.value.numbers[i] < 4
  }

  /** The three fields of a record, in some order. */
  predicate RecordAt(fields: seq<Json.Field>, i: nat, j: nat, k: nat) {
    && |fields| == 3 && i < 3 && j < 3 && k < 3
    && AddressValue(fields[i]) && ProfileValue(fields[j]) && PortsValue(fields[k])
  }

  predicate RecordOf(c: Config, fields: seq<Json.Field>, i: nat, j: nat, k: nat) {
    && RecordAt(fields, i, j, k)
    && IsSmallOf(c.address, fields[i].value.text) && NameOf(c.profile) == fields[j].value.text
    && Increasing(c.ports) && multiset(c.ports) == multiset(fields[k].value.numbers)
  }

  predicate OnlyKnown(fields: seq<Json.Field>) {
    forall i | 0 <= i < |fields| :: KnownKey(fields[i].key)
  }

  lemma {:induction false} KeysAddUp(fields: seq<Json.Field>)
    requires OnlyKnown(fields)
    ensures KeyCount(fields, "address") + KeyCount(fields, "profile") + KeyCount(fields, "ports") == |fields|
  {
    if fields != [] {
      KeysAddUp(fields[1..]);
    }
  }

  lemma {:induction false} FirstValueCounts(fields: seq<Json.Field>, key: string) returns (i: nat)
    requires FirstValue(fields, key).Some?
    ensures KeyCount(fields, key) > 0
    ensures i < |fields| && fields[i] == Json.Field(key, FirstValue(fields, key).value)
  {
    if fields[0].key == key {
      i := 0;
    } else {
      var j := FirstValueCounts(fields[1..], key);
      i := j + 1;
    }
  }

  lemma StringIsField(fields: seq<Json.Field>, key: string) returns (i: nat)
    requires RequireString(fields, key).Ok?
    ensures KeyCount(fields, key) == 1
    ensures i < |fields| && fields[i] == Json.Field(key, Json.Text(RequireString(fields, key).value))
  {
    i := FirstValueCounts(fields, key);
  }

  lemma NumbersAreField(fields: seq<Json.Field>, key: string) returns (i: nat)
    requires RequireNumbers(fields, key).Ok?
    ensures KeyCount(fields, key) == 1
    ensures i < |fields| && fields[i] == Json.Field(key, Json.Numbers(RequireNumbers(fields, key).value))
  {
    i := FirstValueCounts(fields, key);
  }

  lemma ProfileIsNamed(name: string)
    ensures ParseProfile(name).Ok? <==> name == "" || name == "ds5" || name == "dse"
    ensures ParseProfile(name).Ok? ==> NameOf(ParseProfile(name).value) == name
  {
  }

  lemma PortsAreGood(ports: seq<nat>)
    ensures ValidatePorts(ports).Ok? <==> Distinct(ports) && forall i | 0 <= i < |ports| :: ports[i] < 4
    ensures ValidatePorts(ports).Ok? ==>
      Increasing(ValidatePorts(ports).value) && multiset(ValidatePorts(ports).value) == multiset(ports)
  {
    PortsAcceptedExactly(ports);
    if ValidatePorts(ports).Ok? {
      AcceptedPortsAreGood(ports);
      InRangeEach(ports);
    }
  }

  /** A record that was read has its three fields, and is what they say. */
  lemma ReadIsRecord(fields: seq<Json.Field>) returns (i: nat, j: nat, k: nat)
    requires ReadRecord(fields).Ok?
    ensures RecordOf(ReadRecord(fields).value, fields, i, j, k)
  {
    i := StringIsField(fields, "address");
    j := StringIsField(fields, "profile");
    k := NumbersAreField(fields, "ports");
    assert OnlyKnown(fields);
    KeysAddUp(fields);
    NormalizeIsExact(RequireString(fields, "address").value);
    ProfileIsNamed(RequireString(fields, "profile").value);
    PortsAreGood(RequireNumbers(fields, "ports").value);
  }

  lemma FieldsAreFound(fields: seq<Json.Field>, i: nat, j: nat, k: nat)
    requires RecordAt(fields, i, j, k)
    ensures FindField(fields, "address") == Ok(fields[i].value)
    ensures FindField(fields, "profile") == Ok(fields[j].value)
    ensures FindField(fields, "ports") == Ok(fields[k].value)
    ensures OnlyKnown(fields)
  {
    OneOfEach(fields, "address");
    OneOfEach(fields, "profile");
    OneOfEach(fields, "ports");
  }

  /** A record is read exactly from its three fields, in any order, with an address, a profile and good ports. */
  lemma ReadingIsExact(fields: seq<Json.Field>)
    ensures ReadRecord(fields).Ok? <==> exists i: nat, j: nat, k: nat :: RecordAt(fields, i, j, k)
    ensures ReadRecord(fields).Ok? ==>
      exists i: nat, j: nat, k: nat :: RecordOf(ReadRecord(fields).value, fields, i, j, k)
  {
    if ReadRecord(fields).Ok? {
      var i, j, k := ReadIsRecord(fields);
      assert RecordAt(fields, i, j, k);
    }
    if i: nat, j: nat, k: nat :| RecordAt(fields, i, j, k) {
      FieldsAreFound(fields, i, j, k);
      NormalizeIsExact(fields[i].value.text);
      ProfileIsNamed(fields[j].value.text);
      PortsAreGood(fields[k].value.numbers);
    }
  }
}
