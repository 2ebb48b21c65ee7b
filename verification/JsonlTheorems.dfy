/** Printing and parsing undo each other. */
module JsonlTheorems {
  import opened Base
  import opened JsonlSpec

  // Strings ------------------------------------------------------------------------------

  lemma HexDigitReads(n: nat)
    requires n < 16
    ensures HexValue(HexDigit(n)) == Some(n)
  {}

  lemma CodePointOfFour(a: char, b: char, c: char, d: char)
    requires HexValue(a).Some? && HexValue(b).Some? && HexValue(c).Some? && HexValue(d).Some?
    ensures CodePoint([a, b, c, d])
         == Some(((HexValue(a).value * 16 + HexValue(b).value) * 16 + HexValue(c).value) * 16 + HexValue(d).value)
  {
    assert [a, b, c, d][..3] == [a, b, c] && [a, b, c][..2] == [a, b] && [a, b][..1] == [a] && [a][..0] == "";
    assert CodePoint([a]) == Some(HexValue(a).value);
    assert CodePoint([a, b]) == Some(HexValue(a).value * 16 + HexValue(b).value);
    assert CodePoint([a, b, c]) == Some((HexValue(a).value * 16 + HexValue(b).value) * 16 + HexValue(c).value);
  }

  lemma ControlReadsBack(c: char, rest: string)
    requires c < ' '
    ensures ParseOne("\\u00" + [HexDigit(c as nat / 16), HexDigit(c as nat % 16)] + rest) == Got(c, rest)
  {
    var high, low := HexDigit(c as nat / 16), HexDigit(c as nat % 16);
    HexDigitReads(c as nat / 16);
    HexDigitReads(c as nat % 16);
    CodePointOfFour('0', '0', high, low);
    var s := "\\u00" + [high, low] + rest;
    assert s[2..6] == ['0', '0', high, low] && s[6..] == rest;
  }

  /** Every character, escaped or not, is read back. */
  lemma CharReadsBack(c: char, rest: string)
    ensures EscapeChar(c) != "" && EscapeChar(c)[0] != '"'
    ensures ParseOne(EscapeChar(c) + rest) == Got(c, rest)
  {
    var s := EscapeChar(c) + rest;
    if |EscapeChar(c)| == 1 {
      assert s[1..] == rest;
    } else if |EscapeChar(c)| == 2 {
      assert s[2..] == rest;
    } else {
      ControlReadsBack(c, rest);
    }
  }

  lemma {:induction false} CharsReadBack(v: string, rest: string)
    ensures ParseChars(Escape(v) + "\"" + rest) == Got(v, rest)
    decreases |v|
  {
    var s := Escape(v) + "\"" + rest;
    if v == "" {
      assert s[1..] == rest;
    } else {
      var tail := Escape(v[1..]) + "\"" + rest;
      assert s == EscapeChar(v[0]) + tail;
      CharReadsBack(v[0], tail);
      CharsReadBack(v[1..], rest);
      assert [v[0]] + v[1..] == v;
    }
  }

  /** Every string is read back, whatever follows it. */
  lemma StringReadsBack(v: string, rest: string)
    ensures ParseString(PrintString(v) + rest) == Got(v, rest)
  {
    CharsReadBack(v, rest);
    assert (PrintString(v) + rest)[1..] == Escape(v) + "\"" + rest;
  }

  // Keys ---------------------------------------------------------------------------------

  predicate PlainChar(c: char) {
    c != '"' && c != '\\' && c >= ' '
  }

  predicate Plain(key: string) {
    forall i | 0 <= i < |key| :: PlainChar(key[i])
  }

  /** Each character read takes at least one character of text. */
  lemma {:induction false} ParseCharsShrinks(s: string)
    ensures ParseChars(s).Got? ==> |ParseChars(s).value| + 1 + |ParseChars(s).rest| <= |s|
    decreases |s|
  {
    if s != "" && s[0] != '"' && ParseOne(s).Got? {
      ParseCharsShrinks(ParseOne(s).rest);
    }
  }

  /** An unescaped text between quotes is read back exactly when it is plain. */
  lemma {:induction false} RawReadsBackIffPlain(key: string, rest: string)
    ensures ParseChars(key + "\"" + rest) == Got(key, rest) <==> Plain(key)
    decreases |key|
  {
    var s := key + "\"" + rest;
    if key == "" {
      assert s[1..] == rest;
    } else {
      var tail := key[1..] + "\"" + rest;
      assert s == [key[0]] + tail && s[1..] == tail;
      assert Plain(key) ==> PlainChar(key[0]);
      if key[0] == '\\' {
        EscapedIsShorter(s);
      } else if PlainChar(key[0]) {
        RawReadsBackIffPlain(key[1..], rest);
        assert Plain(key) <==> Plain(key[1..]) by { PlainTail(key); }
        assert key == [key[0]] + key[1..];
        SameFirst(key[0], key[1..], ParseChars(tail), rest);
      }
    }
  }

  lemma EscapedIsShorter(s: string)
    requires s != "" && s[0] == '\\'
    ensures ParseChars(s).Got? ==> |ParseChars(s).value| + 1 + |ParseChars(s).rest| < |s|
  {
    if ParseOne(s).Got? {
      ParseCharsShrinks(ParseOne(s).rest);
    }
  }

  lemma PlainTail(key: string)
    requires key != "" && PlainChar(key[0])
    ensures Plain(key) <==> Plain(key[1..])
  {
    assert forall i | 0 < i < |key| :: key[i] == key[1..][i - 1];
    assert Plain(key[1..]) ==> forall i | 0 < i < |key| :: PlainChar(key[i]);
  }

  lemma SameFirst(c: char, tail: string, p: Parsed<string>, rest: string)
    ensures Prepend([c], p) == Got([c] + tail, rest) <==> p == Got(tail, rest)
  {
    if p.Got? && [c] + p.value == [c] + tail {
      assert p.value == ([c] + p.value)[1..] && tail == ([c] + tail)[1..];
    }
  }

  // Numbers ------------------------------------------------------------------------------

  lemma {:induction false} DecimalIsDigits(n: nat, i: nat)
    requires i < |Decimal(n)|
    ensures IsDigit(Decimal(n)[i])
    decreases n
  {
    if n >= 10 && i < |Decimal(n / 10)| {
      DecimalIsDigits(n / 10, i);
    }
  }

  lemma {:induction false} AllDigitsCounted(digits: string, rest: string)
    requires forall i | 0 <= i < |digits| :: IsDigit(digits[i])
    requires rest == "" || !IsDigit(rest[0])
    ensures CountDigits(digits + rest) == |digits|
    decreases |digits|
  {
    if digits == "" {
      assert digits + rest == rest;
    } else {
      assert (digits + rest)[1..] == digits[1..] + rest;
      AllDigitsCounted(digits[1..], rest);
    }
  }

  lemma {:induction false} DecimalValue(n: nat)
    requires n < U32_LIMIT
    ensures forall i | 0 <= i < |Decimal(n)| :: IsDigit(Decimal(n)[i])
    ensures DigitsValue(Decimal(n)) == Some(n)
    decreases n
  {
    forall i | 0 <= i < |Decimal(n)|
      ensures IsDigit(Decimal(n)[i])
    {
      DecimalIsDigits(n, i);
    }
    var digits := Decimal(n);
    if n >= 10 {
      DecimalValue(n / 10);
      assert digits[..|digits| - 1] == Decimal(n / 10);
    } else {
      assert digits[..0] == "";
    }
  }

  predicate EndsNumber(rest: string) {
    rest == "" || !IsDigit(rest[0])
  }

  /** Every 32-bit number is read back when no digit follows it. */
  lemma NumberReadsBack(n: nat, rest: string)
    requires n < U32_LIMIT && EndsNumber(rest)
    ensures ParseUnsigned(Decimal(n) + rest) == Got(n, rest)
  {
    var s := Decimal(n) + rest;
    DecimalValue(n);
    assert IsDigit(Decimal(n)[0]);
    assert SkipSpace(s) == s;
    AllDigitsCounted(Decimal(n), rest);
    assert s[..|Decimal(n)|] == Decimal(n) && s[|Decimal(n)|..] == rest;
  }

  predicate Words(numbers: seq<nat>) {
    forall i | 0 <= i < |numbers| :: numbers[i] < U32_LIMIT
  }

  lemma ElementsStep(s: string, value: nat, t: string)
    requires ParseUnsigned(s) == Got(value, t) && t != ""
    ensures t[0] == ',' ==> ParseElements(s) == Prepend([value], ParseElements(t[1..]))
    ensures t[0] == ']' ==> ParseElements(s) == Got([value], t[1..])
  {}

  lemma SplitFirst<T>(more: seq<T>)
    requires more != []
    ensures [more[0]] + more[1..] == more
  {}

  lemma AfterFirst(c: char, a: string, b: string)
    ensures [c] + a + b == [c] + (a + b) && ([c] + a + b)[1..] == a + b
  {}

  lemma PrintRestStarts(more: seq<nat>, rest: string)
    ensures var tail := PrintRest(more) + rest;
      if more == [] then tail[0] == ']' && tail[1..] == rest
      else tail[0] == ',' && tail[1..] == Decimal(more[0]) + (PrintRest(more[1..]) + rest)
  {
    if more == [] {
      AfterFirst(']', "", rest);
    } else {
      var a, b := Decimal(more[0]), PrintRest(more[1..]);
      AfterFirst(',', a, b);
      AfterFirst(',', a + b, rest);
      Assoc(a, b, rest);
    }
  }

  lemma {:induction false} ElementsReadBack(first: nat, more: seq<nat>, rest: string)
    requires first < U32_LIMIT && Words(more)
    ensures ParseElements(Decimal(first) + (PrintRest(more) + rest)) == Got([first] + more, rest)
    decreases |more|
  {
    var tail := PrintRest(more) + rest;
    PrintRestStarts(more, rest);
    NumberReadsBack(first, tail);
    ElementsStep(Decimal(first) + tail, first, tail);
    if more == [] {
      assert [first] + more == [first];
    } else {
      ElementsReadBack(more[0], more[1..], rest);
      SplitFirst(more);
    }
  }

  lemma ArrayStep(t: string)
    requires t != "" && IsDigit(t[0])
    ensures ParseArray("[" + t) == ParseElements(t)
  {
    assert ("[" + t)[1..] == t;
  }

  lemma EmptyArray(rest: string)
    ensures ParseArray("[]" + rest) == Got([], rest)
  {
    assert ("[]" + rest)[1..] == "]" + rest && ("]" + rest)[1..] == rest;
  }

  lemma NumbersReadBack(numbers: seq<nat>, rest: string)
    requires Words(numbers)
    ensures ParseArray(PrintNumbers(numbers) + rest) == Got(numbers, rest)
  {
    if numbers == [] {
      EmptyArray(rest);
    } else {
      var first, more := Decimal(numbers[0]), PrintRest(numbers[1..]);
      AfterFirst('[', first, more);
      AfterFirst('[', first + more, rest);
      Assoc(first, more, rest);
      DecimalIsDigits(numbers[0], 0);
      ArrayStep(first + (more + rest));
      ElementsReadBack(numbers[0], numbers[1..], rest);
      assert [numbers[0]] + numbers[1..] == numbers;
    }
  }

  // Objects ------------------------------------------------------------------------------

  predicate Printable(v: Value) {
    v.Numbers? ==> Words(v.numbers)
  }

  lemma ValueReadsBack(v: Value, rest: string)
    requires Printable(v)
    ensures ParseValue(PrintValue(v) + rest) == Got(v, rest)
  {
    match v
    case Text(text) =>
      StringReadsBack(text, rest);
    case Numbers(numbers) =>
      NumbersReadBack(numbers, rest);
  }

  predicate GoodField(f: Field) {
    Plain(f.key) && Printable(f.value)
  }

  predicate GoodFields(fields: seq<Field>) {
    forall i | 0 <= i < |fields| :: GoodField(fields[i])
  }

  lemma FieldStarts(f: Field, rest: string)
    ensures var s := PrintField(f) + rest;
      s[0] == '"' && s[1..] == f.key + "\"" + (":" + (PrintValue(f.value) + rest))
  {}

  lemma FieldStep(s: string, key: string, value: string, f: Field, rest: string)
    requires ParseString(s) == Got(key, ":" + value) && ParseValue(value) == Got(f.value, rest) && f.key == key
    ensures ParseField(s) == Got(f, rest)
  {
    assert (":" + value)[1..] == value;
  }

  lemma FieldReadsBack(f: Field, rest: string)
    requires GoodField(f)
    ensures ParseField(PrintField(f) + rest) == Got(f, rest)
  {
    var value := PrintValue(f.value) + rest;
    FieldStarts(f, rest);
    RawReadsBackIffPlain(f.key, ":" + value);
    ValueReadsBack(f.value, rest);
    FieldStep(PrintField(f) + rest, f.key, value, f, rest);
  }

  lemma FieldsStep(s: string, f: Field, t: string)
    requires ParseField(s) == Got(f, t) && t != ""
    ensures t[0] == ',' ==> ParseFields(s) == Prepend([f], ParseFields(t[1..]))
    ensures t[0] == '}' ==> ParseFields(s) == Finish([f], t[1..])
  {}

  lemma PrintMoreStarts(more: seq<Field>)
    ensures var tail := PrintMore(more);
      if more == [] then tail == "}" && tail[1..] == ""
      else tail != "" && tail[0] == ',' && tail[1..] == PrintField(more[0]) + PrintMore(more[1..])
  {
    if more != [] {
      AfterFirst(',', PrintField(more[0]), PrintMore(more[1..]));
    }
  }

  lemma {:induction false} FieldsReadBack(first: Field, more: seq<Field>)
    requires GoodField(first) && GoodFields(more)
    ensures ParseFields(PrintField(first) + PrintMore(more)) == Got([first] + more, "")
    decreases |more|
  {
    var tail := PrintMore(more);
    PrintMoreStarts(more);
    FieldReadsBack(first, tail);
    FieldsStep(PrintField(first) + tail, first, tail);
    if more == [] {
      assert [first] + more == [first];
    } else {
      FieldsReadBack(more[0], more[1..]);
      SplitFirst(more);
    }
  }

  lemma ObjectStep(t: string)
    requires t != "" && t[0] == '"'
    ensures ParseObject("{" + t) == ParseFields(t)
  {
    assert ("{" + t)[1..] == t;
  }

  /** Every object with plain keys is read back, with all its fields in order. */
  lemma ObjectReadsBack(fields: seq<Field>)
    requires GoodFields(fields)
    ensures ParseObject(PrintObject(fields)) == Got(fields, "")
  {
    if fields == [] {
      assert "{}"[1..] == "}" && "}"[1..] == "";
    } else {
      var t := PrintField(fields[0]) + PrintMore(fields[1..]);
      FieldStarts(fields[0], PrintMore(fields[1..]));
      assert PrintObject(fields) == "{" + t;
      ObjectStep(t);
      FieldsReadBack(fields[0], fields[1..]);
      assert [fields[0]] + fields[1..] == fields;
    }
  }
}
