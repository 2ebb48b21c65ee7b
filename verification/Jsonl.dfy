/**
 The code of src/jsonl.cc: an offset moves over the text, and an exception is an `Err` result.
 */
module Jsonl {
  import opened Base
  import opened JsonlSpec

  /** What the parser function says of the text from some offset on, put in terms of offsets. */
  ghost predicate Agrees<T(!new)>(p: Parsed<T>, r: Result<T, Error>, text: string, next: nat) {
    match p
    case Failed(e) => r == Err(e)
    case Got(value, rest) => r == Ok(value) && next <= |text| && text[next..] == rest
  }

  lemma Behind(text: string, offset: nat, k: nat)
    requires offset + k <= |text|
    ensures text[offset..][k..] == text[offset + k..]
  {}

  // Parsing ------------------------------------------------------------------------------

  method SkipSpaceAt(text: string, offset: nat) returns (next: nat)
    requires offset <= |text|
    ensures offset <= next <= |text| && text[next..] == SkipSpace(text[offset..])
    ensures next < |text| ==> text[next] == SkipSpace(text[offset..])[0]
  {
    next := offset;
    while next < |text| && IsSpace(text[next])
      invariant offset <= next <= |text| && SkipSpace(text[next..]) == SkipSpace(text[offset..])
    {
      Behind(text, next, 1);
      next := next + 1;
    }
  }

  method RequireChar(text: string, offset: nat, expected: char) returns (r: Result<(), Error>, next: nat)
    requires offset <= |text|
    ensures Agrees(ParseChar(text[offset..], expected), r, text, next) && (r.Ok? ==> offset < next)
  {
    next := SkipSpaceAt(text, offset);
    if next >= |text| || text[next] != expected {
      return Err(InvalidObject), next;
    }
    Behind(text, next, 1);
    r, next := Ok(()), next + 1;
  }

  method ParseHexDigits(digits: string) returns (code: Option<nat>)
    ensures code == CodePoint(digits)
  {
    var value, i := 0, 0;
    assert digits[..0] == "";
    while i < |digits|
      invariant i <= |digits| && CodePoint(digits[..i]) == Some(value)
    {
      assert digits[..i + 1][..i] == digits[..i];
      var digit := HexValue(digits[i]);
      if digit.None? {
        NoCodePoint(digits, i);
        return None;
      }
      value := value * 16 + digit.value;
      i := i + 1;
    }
    assert digits[..|digits|] == digits;
    code := Some(value);
  }

  lemma {:induction false} NoCodePoint(digits: string, i: nat)
    requires i < |digits| && HexValue(digits[i]).None?
    ensures CodePoint(digits).None?
    decreases |digits|
  {
    if i < |digits| - 1 {
      NoCodePoint(digits[..|digits| - 1], i);
    }
  }

  /** One character of a string, with its escape if it has one. */
  method ParseOneAt(text: string, offset: nat) returns (r: Result<char, Error>, next: nat)
    requires offset < |text|
    ensures Agrees(ParseOne(text[offset..]), r, text, next) && (r.Ok? ==> offset < next)
  {
    var ch := text[offset];
    next := offset + 1;
    ghost var s := text[offset..];
    assert s[0] == ch;
    if ch == '\\' {
      if next >= |text| { return Err(UnterminatedEscape), next; }
      var escape := text[next];
      assert s[1] == escape;
      next := next + 1;
      if escape == 'u' {
        if next + 4 > |text| { return Err(UnterminatedUnicode), next; }
        assert s[2..6] == text[next..next + 4];
        var code := ParseHexDigits(text[next..next + 4]);
        Behind(text, offset, 6);
        if code.None? { return Err(InvalidUnicode), next; }
        if code.value > 0x7F { return Err(UnsupportedUnicode), next; }
        return Ok(code.value as char), next + 4;
      }
      Behind(text, offset, 2);
      if Unescape(escape).None? { return Err(UnsupportedEscape), next; }
      return Ok(Unescape(escape).value), next;
    }
    Behind(text, offset, 1);
    if ch < ' ' { return Err(ControlCharacter), next; }
    r := Ok(ch);
  }

  lemma PrependTwice<T>(a: seq<T>, b: seq<T>, p: Parsed<seq<T>>)
    ensures Prepend(a, Prepend(b, p)) == Prepend(a + b, p)
  {
    if p.Got? {
      Assoc(a, b, p.value);
    }
  }

  lemma PrependNothing<T>(p: Parsed<seq<T>>)
    ensures Prepend([], p) == p
  {
    if p.Got? {
      assert [] + p.value == p.value;
    }
  }

  method ParseStringAt(text: string, offset: nat) returns (r: Result<string, Error>, next: nat)
    requires offset <= |text|
    ensures Agrees(ParseString(text[offset..]), r, text, next) && (r.Ok? ==> offset < next)
  {
    next := SkipSpaceAt(text, offset);
    if next >= |text| || text[next] != '"' {
      return Err(ExpectedString), next;
    }
    Behind(text, next, 1);
    next := next + 1;
    ghost var all := ParseChars(text[next..]);
    PrependNothing(all);
    var value := "";
    while next < |text|
      invariant offset < next <= |text| && Prepend(value, ParseChars(text[next..])) == all
      decreases |text| - next
    {
      if text[next] == '"' {
        Behind(text, next, 1);
        assert value + "" == value;
        return Ok(value), next + 1;
      }
      var one, after := ParseOneAt(text, next);
      if one.Err? {
        return Err(one.error), after;
      }
      PrependTwice(value, [one.value], ParseChars(text[after..]));
      value, next := value + [one.value], after;
    }
    r := Err(UnterminatedString);
  }

  lemma {:induction false} DigitsEnd(s: string, n: nat)
    requires n <= |s| && (forall i | 0 <= i < n :: IsDigit(s[i])) && (n == |s| || !IsDigit(s[n]))
    ensures CountDigits(s) == n
  {
    if n > 0 {
      DigitsEnd(s[1..], n - 1);
    }
  }

  method DigitsValueOf(digits: string) returns (value: Option<nat>)
    requires forall i | 0 <= i < |digits| :: IsDigit(digits[i])
    ensures value == DigitsValue(digits)
  {
    var v, i := 0, 0;
    assert digits[..0] == "";
    while i < |digits|
      invariant i <= |digits| && DigitsValue(digits[..i]) == Some(v)
    {
      assert digits[..i + 1][..i] == digits[..i];
      v := v * 10 + (digits[i] - '0') as nat;
      if v >= U32_LIMIT {
        NoValue(digits, i + 1);
        return None;
      }
      i := i + 1;
    }
    assert digits[..|digits|] == digits;
    value := Some(v);
  }

  /** Once too large, always too large. */
  lemma {:induction false} NoValue(digits: string, i: nat)
    requires forall k | 0 <= k < |digits| :: IsDigit(digits[k])
    requires i <= |digits| && DigitsValue(digits[..i]).None?
    ensures DigitsValue(digits).None?
    decreases |digits|
  {
    if i < |digits| {
      assert digits[..|digits| - 1][..i] == digits[..i];
      NoValue(digits[..|digits| - 1], i);
    } else {
      assert digits[..i] == digits;
    }
  }

  method ScanDigits(text: string, start: nat) returns (next: nat)
    requires start <= |text|
    ensures start <= next <= |text| && next - start == CountDigits(text[start..])
    ensures forall i | start <= i < next :: IsDigit(text[i])
  {
    next := start;
    while next < |text| && IsDigit(text[next])
      invariant start <= next <= |text| && forall i | start <= i < next :: IsDigit(text[i])
    {
      next := next + 1;
    }
    DigitsEnd(text[start..], next - start);
  }

  method ParseUnsignedAt(text: string, offset: nat) returns (r: Result<nat, Error>, next: nat)
    requires offset <= |text|
    ensures Agrees(ParseUnsigned(text[offset..]), r, text, next) && (r.Ok? ==> offset < next)
  {
    var start := SkipSpaceAt(text, offset);
    next := ScanDigits(text, start);
    if start == next {
      return Err(ExpectedUnsigned), next;
    }
    assert text[start..][..next - start] == text[start..next];
    Behind(text, start, next - start);
    var value := DigitsValueOf(text[start..next]);
    r := if value.None? then Err(UnsignedOverflow) else Ok(value.value);
  }

  /** One element and what ends it. */
  method ParseElementAt(text: string, offset: nat) returns (r: Result<nat, Error>, last: bool, next: nat)
    requires offset <= |text|
    ensures r.Err? ==> ParseElements(text[offset..]) == Failed(r.error)
    ensures r.Ok? ==> offset < next <= |text|
    ensures r.Ok? && last ==> ParseElements(text[offset..]) == Got([r.value], text[next..])
    ensures r.Ok? && !last ==> ParseElements(text[offset..]) == Prepend([r.value], ParseElements(text[next..]))
  {
    last := false;
    r, next := ParseUnsignedAt(text, offset);
    if r.Err? { return; }
    next := SkipSpaceAt(text, next);
    if next >= |text| { return Err(UnterminatedArray), last, next; }
    Behind(text, next, 1);
    if text[next] == ']' {
      last := true;
    } else if text[next] != ',' {
      return Err(ExpectedArraySeparator), last, next;
    }
    next := next + 1;
  }

  method ParseElementsAt(text: string, offset: nat) returns (r: Result<seq<nat>, Error>, next: nat)
    requires offset <= |text|
    ensures Agrees(ParseElements(text[offset..]), r, text, next) && (r.Ok? ==> offset < next)
  {
    ghost var all := ParseElements(text[offset..]);
    PrependNothing(all);
    var values: seq<nat> := [];
    next := offset;
    while true
      invariant offset <= next <= |text| && Prepend(values, ParseElements(text[next..])) == all
      decreases |text| - next
    {
      var value, last, after := ParseElementAt(text, next);
      if value.Err? { return Err(value.error), after; }
      if last { return Ok(values + [value.value]), after; }
      PrependTwice(values, [value.value], ParseElements(text[after..]));
      values, next := values + [value.value], after;
    }
  }

  method ParseArrayAt(text: string, offset: nat) returns (r: Result<seq<nat>, Error>, next: nat)
    requires offset <= |text|
    ensures Agrees(ParseArray(text[offset..]), r, text, next) && (r.Ok? ==> offset < next)
  {
    var open;
    open, next := RequireChar(text, offset, '[');
    if open.Err? { return Err(open.error), next; }
    next := SkipSpaceAt(text, next);
    if next < |text| && text[next] == ']' {
      Behind(text, next, 1);
      return Ok([]), next + 1;
    }
    r, next := ParseElementsAt(text, next);
  }

  method ParseValueAt(text: string, offset: nat) returns (r: Result<Value, Error>, next: nat)
    requires offset <= |text|
    ensures Agrees(ParseValue(text[offset..]), r, text, next) && (r.Ok? ==> offset < next)
  {
    next := SkipSpaceAt(text, offset);
    if next >= |text| { return Err(MissingValue), next; }
    if text[next] == '"' {
      var s, after := ParseStringAt(text, next);
      return if s.Ok? then Ok(Text(s.value)) else Err(s.error), after;
    }
    if text[next] == '[' {
      var a, after := ParseArrayAt(text, next);
      return if a.Ok? then Ok(Numbers(a.value)) else Err(a.error), after;
    }
    r := Err(UnsupportedValue);
  }

  method ParseFieldAt(text: string, offset: nat) returns (r: Result<Field, Error>, next: nat)
    requires offset <= |text|
    ensures Agrees(ParseField(text[offset..]), r, text, next) && (r.Ok? ==> offset < next)
  {
    var key, colon, value;
    key, next := ParseStringAt(text, offset);
    if key.Err? { return Err(key.error), next; }
    colon, next := RequireChar(text, next, ':');
    if colon.Err? { return Err(colon.error), next; }
    value, next := ParseValueAt(text, next);
    r := if value.Err? then Err(value.error) else Ok(Field(key.value, value.value));
  }

  ghost predicate Answers(p: Parsed<seq<Field>>, r: Result<seq<Field>, Error>) {
    r == match p case Failed(e) => Err(e) case Got(fields, _) => Ok(fields)
  }

  method FinishAt(text: string, offset: nat, fields: seq<Field>) returns (r: Result<seq<Field>, Error>)
    requires offset <= |text|
    ensures Answers(Finish(fields, text[offset..]), r)
  {
    var end := SkipSpaceAt(text, offset);
    r := if end != |text| then Err(TrailingData) else Ok(fields);
  }

  /** One field and what ends it. */
  method ParseNextField(text: string, offset: nat) returns (r: Result<Field, Error>, last: bool, next: nat)
    requires offset <= |text|
    ensures r.Err? ==> ParseFields(text[offset..]) == Failed(r.error)
    ensures r.Ok? ==> offset < next <= |text|
    ensures r.Ok? && last ==> ParseFields(text[offset..]) == Finish([r.value], text[next..])
    ensures r.Ok? && !last ==> ParseFields(text[offset..]) == Prepend([r.value], ParseFields(text[next..]))
  {
    last := false;
    r, next := ParseFieldAt(text, offset);
    if r.Err? { return; }
    next := SkipSpaceAt(text, next);
    if next >= |text| { return Err(UnterminatedObject), last, next; }
    Behind(text, next, 1);
    if text[next] == '}' {
      last := true;
    } else if text[next] != ',' {
      return Err(ExpectedFieldSeparator), last, next;
    }
    next := next + 1;
  }

  method ParseFieldsAt(text: string, offset: nat) returns (r: Result<seq<Field>, Error>)
    requires offset <= |text|
    ensures Answers(ParseFields(text[offset..]), r)
  {
    ghost var all := ParseFields(text[offset..]);
    PrependNothing(all);
    var fields: seq<Field> := [];
    var next := offset;
    while true
      invariant next <= |text| && Prepend(fields, ParseFields(text[next..])) == all
      decreases |text| - next
    {
      var field, last, after := ParseNextField(text, next);
      if field.Err? { return Err(field.error); }
      if last {
        assert all == Finish(fields + [field.value], text[after..]);
        r := FinishAt(text, after, fields + [field.value]);
        return;
      }
      PrependTwice(fields, [field.value], ParseFields(text[after..]));
      fields, next := fields + [field.value], after;
    }
  }

  method ParseObjectText(text: string) returns (r: Result<seq<Field>, Error>)
    ensures Answers(ParseObject(text), r)
  {
    assert text[0..] == text;
    var open, next := RequireChar(text, 0, '{');
    if open.Err? { return Err(open.error); }
    next := SkipSpaceAt(text, next);
    if next < |text| && text[next] == '}' {
      Behind(text, next, 1);
      r := FinishAt(text, next + 1, []);
    } else {
      r := ParseFieldsAt(text, next);
    }
  }

  // Printing -----------------------------------------------------------------------------

  lemma {:induction false} EscapeConcat(a: string, b: string)
    ensures Escape(a + b) == Escape(a) + Escape(b)
  {
    if a == "" {
      assert a + b == b;
    } else {
      assert (a + b)[1..] == a[1..] + b;
      EscapeConcat(a[1..], b);
      Assoc(EscapeChar(a[0]), Escape(a[1..]), Escape(b));
    }
  }

  method EscapeText(text: string) returns (escaped: string)
    ensures escaped == Escape(text)
  {
    escaped := "";
    var i := 0;
    while i < |text|
      invariant i <= |text| && escaped == Escape(text[..i])
    {
      EscapeConcat(text[..i], [text[i]]);
      assert text[..i + 1] == text[..i] + [text[i]];
      assert [text[i]][1..] == "" && EscapeChar(text[i]) + "" == EscapeChar(text[i]);
      escaped := escaped + EscapeChar(text[i]);
      i := i + 1;
    }
    assert text[..|text|] == text;
  }

  /** The array's text without its closing bracket. */
  function Opened(values: seq<nat>): string {
    if values == [] then "["
    else if |values| == 1 then "[" + Decimal(values[0])
    else Opened(values[..|values| - 1]) + "," + Decimal(values[|values| - 1])
  }

  lemma {:induction false} OpenedIsPrinted(values: seq<nat>, more: seq<nat>)
    requires values != []
    ensures Opened(values) + PrintRest(more) == PrintNumbers(values + more)
    decreases |values|
  {
    if |values| == 1 {
      assert (values + more)[1..] == more;
    } else {
      var shorter, last := values[..|values| - 1], values[|values| - 1];
      OpenedIsPrinted(shorter, [last] + more);
      assert shorter + ([last] + more) == values + more;
      assert ([last] + more)[1..] == more;
      Assoc(Opened(shorter), "," + Decimal(last), PrintRest(more));
      Assoc(Opened(shorter), ",", Decimal(last));
    }
  }

  method NumbersText(values: seq<nat>) returns (text: string)
    ensures text == PrintNumbers(values)
  {
    text := "[";
    var i := 0;
    while i < |values|
      invariant i <= |values| && text == Opened(values[..i])
    {
      assert values[..i + 1][..i] == values[..i];
      if i > 0 {
        text := text + ",";
      }
      text := text + Decimal(values[i]);
      i := i + 1;
    }
    assert values[..|values|] == values && values + [] == values;
    if values != [] {
      OpenedIsPrinted(values, []);
    }
    text := text + "]";
  }

  method StringField(key: string, value: string) returns (text: string)
    ensures text == PrintField(Field(key, Text(value)))
  {
    var escaped := EscapeText(value);
    text := "\"" + key + "\":" + ("\"" + escaped + "\"");
  }

  method NumbersField(key: string, values: seq<nat>) returns (text: string)
    ensures text == PrintField(Field(key, Numbers(values)))
  {
    var list := NumbersText(values);
    text := "\"" + key + "\":" + list;
  }

}
