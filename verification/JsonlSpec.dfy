/**
 The record format of src/jsonl.cc: one object a line, with string and unsigned-array values.
 A parser takes the text still to be read and gives its value with the text left over. Bytes
 are characters; only the first 128 are told apart.
 */
module JsonlSpec {
  import opened Base

  datatype Error =
    | InvalidObject | ExpectedString | UnterminatedEscape | UnterminatedUnicode | InvalidUnicode | UnsupportedUnicode
    | UnsupportedEscape | ControlCharacter | UnterminatedString | ExpectedUnsigned | UnsignedOverflow
    | UnterminatedArray | ExpectedArraySeparator | MissingValue | UnsupportedValue | TrailingData
    | UnterminatedObject | ExpectedFieldSeparator
    | DuplicateField | MissingField | MustBeString | MustBeArray | UnknownField

  datatype Value = Text(text: string) | Numbers(numbers: seq<nat>)

  datatype Field = Field(key: string, value: Value)

  datatype Parsed<+T> = Got(value: T, rest: string) | Failed(error: Error)

  // Printing -----------------------------------------------------------------------------

  function HexDigit(n: nat): char
    requires n < 16
  {
    if n < 10 then '0' + n as char else 'a' + (n - 10) as char
  }

  function EscapeChar(c: char): string {
    if c == '"' then "\\\"" else if c == '\\' then "\\\\"
    else if c == '\U{0008}' then "\\b" else if c == '\U{000C}' then "\\f"
    else if c == '\n' then "\\n" else if c == '\r' then "\\r" else if c == '\t' then "\\t"
    else if c < ' ' then "\\u00" + [HexDigit(c as nat / 16), HexDigit(c as nat % 16)]
    else [c]
  }

  function Escape(s: string): string {
    if s == "" then "" else EscapeChar(s[0]) + Escape(s[1..])
  }

  function PrintString(s: string): string {
    "\"" + Escape(s) + "\""
  }

  function Decimal(n: nat): (digits: string)
    ensures |digits| > 0
  {
    if n < 10 then ['0' + n as char] else Decimal(n / 10) + ['0' + (n % 10) as char]
  }

  function PrintRest(numbers: seq<nat>): string {
    if numbers == [] then "]" else "," + Decimal(numbers[0]) + PrintRest(numbers[1..])
  }

  function PrintNumbers(numbers: seq<nat>): string {
    if numbers == [] then "[]" else "[" + Decimal(numbers[0]) + PrintRest(numbers[1..])
  }

  function PrintValue(v: Value): string {
    match v
    case Text(text) => PrintString(text)
    case Numbers(numbers) => PrintNumbers(numbers)
  }

  /** A field; keys are written as they are. */
  function PrintField(f: Field): string {
    "\"" + f.key + "\":" + PrintValue(f.value)
  }

  function PrintMore(fields: seq<Field>): string {
    if fields == [] then "}" else "," + PrintField(fields[0]) + PrintMore(fields[1..])
  }

  function PrintObject(fields: seq<Field>): string {
    if fields == [] then "{}" else "{" + PrintField(fields[0]) + PrintMore(fields[1..])
  }

  // Parsing ------------------------------------------------------------------------------

  predicate IsSpace(c: char) {
    c == ' ' || c == '\t' || c == '\n' || c == '\U{000B}' || c == '\U{000C}' || c == '\r'
  }

  predicate IsDigit(c: char) {
    '0' <= c <= '9'
  }

  function SkipSpace(s: string): (rest: string)
    ensures |rest| <= |s|
  {
    if s != "" && IsSpace(s[0]) then SkipSpace(s[1..]) else s
  }

  function ParseChar(s: string, expected: char): (p: Parsed<()>)
    ensures p.Got? ==> |p.rest| < |s|
  {
    var t := SkipSpace(s);
    if t == "" || t[0] != expected then Failed(InvalidObject) else Got((), t[1..])
  }

  function HexValue(c: char): Option<nat> {
    if '0' <= c <= '9' then Some((c - '0') as nat)
    else if 'a' <= c <= 'f' then Some((c - 'a') as nat + 10)
    else if 'A' <= c <= 'F' then Some((c - 'A') as nat + 10)
    else None
  }

  /** The code point of the hexadecimal digits, or nothing when one of them is not a digit. */
  function CodePoint(digits: string): Option<nat> {
    if digits == "" then Some(0)
    else
      var high, low := CodePoint(digits[..|digits| - 1]), HexValue(digits[|digits| - 1]);
      if high.Some? && low.Some? then Some(high.value * 16 + low.value) else None
  }

  function Unescape(c: char): Option<char> {
    if c == '"' || c == '\\' || c == '/' then Some(c)
    else if c == 'b' then Some('\U{0008}') else if c == 'f' then Some('\U{000C}')
    else if c == 'n' then Some('\n') else if c == 'r' then Some('\r') else if c == 't' then Some('\t')
    else None
  }

  /** One character of a string, possibly escaped; `s` does not start with a quote. */
  function ParseOne(s: string): (p: Parsed<char>)
    requires s != ""
    ensures p.Got? ==> |p.rest| < |s|
  {
    if s[0] == '\\' then
      if |s| < 2 then Failed(UnterminatedEscape)
      else if s[1] == 'u' then
        if |s| < 6 then Failed(UnterminatedUnicode)
        else
          var code := CodePoint(s[2..6]);
          if code.None? then Failed(InvalidUnicode)
          else if code.value > 0x7F then Failed(UnsupportedUnicode)
          else Got(code.value as char, s[6..])
      else if Unescape(s[1]).None? then Failed(UnsupportedEscape)
      else Got(Unescape(s[1]).value, s[2..])
    else if s[0] < ' ' then Failed(ControlCharacter)
    else Got(s[0], s[1..])
  }

  /** The rest of a string value, its opening quote behind us. */
  function ParseChars(s: string): (p: Parsed<string>)
    ensures p.Got? ==> |p.rest| < |s|
    decreases |s|
  {
    if s == "" then Failed(UnterminatedString)
    else if s[0] == '"' then Got("", s[1..])
    else
      match ParseOne(s)
      case Failed(e) => Failed(e)
      case Got(c, rest) => Prepend([c], ParseChars(rest))
  }

  /** `read` in front of what a parser goes on to read. */
  function Prepend<T>(read: seq<T>, p: Parsed<seq<T>>): Parsed<seq<T>> {
    match p
    case Failed(e) => Failed(e)
    case Got(more, rest) => Got(read + more, rest)
  }

  function ParseString(s: string): (p: Parsed<string>)
    ensures p.Got? ==> |p.rest| < |s|
  {
    var t := SkipSpace(s);
    if t == "" || t[0] != '"' then Failed(ExpectedString) else ParseChars(t[1..])
  }

  function CountDigits(s: string): (n: nat)
    ensures n <= |s|
  {
    if s != "" && IsDigit(s[0]) then 1 + CountDigits(s[1..]) else 0
  }

  /** The number, unless some prefix of the digits already exceeds 32 bits. */
  function DigitsValue(digits: string): Option<nat>
    requires forall i | 0 <= i < |digits| :: IsDigit(digits[i])
  {
    if digits == "" then Some(0)
    else
      var high := DigitsValue(digits[..|digits| - 1]);
      assert IsDigit(digits[|digits| - 1]);
      if high.None? then None
      else
        var value := high.value * 10 + (digits[|digits| - 1] - '0') as nat;
        if value >= U32_LIMIT then None else Some(value)
  }

  lemma {:induction false} CountDigitsAreDigits(s: string, i: nat)
    requires i < CountDigits(s)
    ensures IsDigit(s[i])
  {
    if i > 0 {
      CountDigitsAreDigits(s[1..], i - 1);
    }
  }

  function ParseUnsigned(s: string): (p: Parsed<nat>)
    ensures p.Got? ==> |p.rest| < |s|
  {
    var t := SkipSpace(s);
    var n := CountDigits(t);
    forall i | 0 <= i < n ensures IsDigit(t[..n][i]) { CountDigitsAreDigits(t, i); }
    if n == 0 then Failed(ExpectedUnsigned)
    else if DigitsValue(t[..n]).None? then Failed(UnsignedOverflow)
    else Got(DigitsValue(t[..n]).value, t[n..])
  }

  function ParseElements(s: string): (p: Parsed<seq<nat>>)
    ensures p.Got? ==> |p.rest| < |s|
    decreases |s|
  {
    match ParseUnsigned(s)
    case Failed(e) => Failed(e)
    case Got(value, more) =>
      var t := SkipSpace(more);
      if t == "" then Failed(UnterminatedArray)
      else if t[0] == ']' then Got([value], t[1..])
      else if t[0] != ',' then Failed(ExpectedArraySeparator)
      else Prepend([value], ParseElements(t[1..]))
  }

  function ParseArray(s: string): (p: Parsed<seq<nat>>)
    ensures p.Got? ==> |p.rest| < |s|
  {
    match ParseChar(s, '[')
    case Failed(e) => Failed(e)
    case Got(_, inside) =>
      var t := SkipSpace(inside);
      if t != "" && t[0] == ']' then Got([], t[1..]) else ParseElements(t)
  }

  function ParseValue(s: string): (p: Parsed<Value>)
    ensures p.Got? ==> |p.rest| < |s|
  {
    var t := SkipSpace(s);
    if t == "" then Failed(MissingValue)
    else if t[0] == '"' then
      match ParseString(t) case Failed(e) => Failed(e) case Got(text, rest) => Got(Text(text), rest)
    else if t[0] == '[' then
      match ParseArray(t) case Failed(e) => Failed(e) case Got(numbers, rest) => Got(Numbers(numbers), rest)
    else Failed(UnsupportedValue)
  }

  function ParseField(s: string): (p: Parsed<Field>)
    ensures p.Got? ==> |p.rest| < |s|
  {
    match ParseString(s)
    case Failed(e) => Failed(e)
    case Got(key, afterKey) =>
      match ParseChar(afterKey, ':')
      case Failed(e) => Failed(e)
      case Got(_, afterColon) =>
        match ParseValue(afterColon)
        case Failed(e) => Failed(e)
        case Got(value, rest) => Got(Field(key, value), rest)
  }

  function ParseFields(s: string): Parsed<seq<Field>>
    decreases |s|
  {
    match ParseField(s)
    case Failed(e) => Failed(e)
    case Got(field, more) =>
      var t := SkipSpace(more);
      if t == "" then Failed(UnterminatedObject)
      else if t[0] == '}' then Finish([field], t[1..])
      else if t[0] != ',' then Failed(ExpectedFieldSeparator)
      else Prepend([field], ParseFields(t[1..]))
  }

  /** Nothing but space may follow the object. */
  function Finish(fields: seq<Field>, s: string): Parsed<seq<Field>> {
    if SkipSpace(s) != "" then Failed(TrailingData) else Got(fields, "")
  }

  function ParseObject(s: string): Parsed<seq<Field>> {
    match ParseChar(s, '{')
    case Failed(e) => Failed(e)
    case Got(_, inside) =>
      var t := SkipSpace(inside);
      if t != "" && t[0] == '}' then Finish([], t[1..]) else ParseFields(t)
  }
}
