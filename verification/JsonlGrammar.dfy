/**
 The language of the record format as syntax trees: what a text may look like and what it means. The
 parsers accept exactly the texts of good trees and give their values.
 */
module JsonlGrammar {
  import opened Base
  import opened JsonlSpec

  // Trees ----------------------------------------------------------------------------------

  /** The tokens of a string, one for each of its characters, with the space before its quote. */
  datatype Str = Str(before: string, tokens: seq<string>)

  /** A number with the space around it. */
  datatype Num = Num(before: string, digits: string, after: string)

  /** `blank` is the space inside an empty array. */
  datatype Val = StrVal(str: Str) | NumVal(before: string, blank: string, items: seq<Num>)

  /** A field with the space before its colon and behind its value. */
  datatype Fld = Fld(key: Str, colon: string, value: Val, after: string)

  datatype Obj = Obj(before: string, blank: string, fields: seq<Fld>, after: string)

  // Texts ----------------------------------------------------------------------------------

  predicate Blank(s: string) {
    forall i | 0 <= i < |s| :: s[i] == ' ' || '\t' <= s[i] <= '\r'
  }

  /** Sixteen for a character that is no hexadecimal digit. */
  function Hex(c: char): nat {
    if '0' <= c <= '9' then c as nat - 48
    else if 'a' <= c <= 'f' then c as nat - 87
    else if 'A' <= c <= 'F' then c as nat - 55
    else 16
  }

  function Hex4(t: string): nat
    requires |t| == 6
  {
    4096 * Hex(t[2]) + 256 * Hex(t[3]) + 16 * Hex(t[4]) + Hex(t[5])
  }

  predicate HexToken(t: string) {
    && |t| == 6 && t[0] == '\\' && t[1] == 'u'
    && Hex(t[2]) < 16 && Hex(t[3]) < 16 && Hex(t[4]) < 16 && Hex(t[5]) < 16 && Hex4(t) < 128
  }

  predicate Escapes(c: char) {
    c == '"' || c == '\\' || c == '/' || c == 'b' || c == 'f' || c == 'n' || c == 'r' || c == 't'
  }

  /** A plain character, a two-character escape, or a code point of four hexadecimal digits. */
  predicate GoodToken(t: string) {
    || (|t| == 1 && t[0] >= ' ' && t[0] != '"' && t[0] != '\\')
    || (|t| == 2 && t[0] == '\\' && Escapes(t[1]))
    || HexToken(t)
  }

  function TokenChar(t: string): char
    requires GoodToken(t)
  {
    if |t| == 1 then t[0]
    else if |t| == 6 then Hex4(t) as char
    else if t[1] == 'b' then 8 as char
    else if t[1] == 'f' then 12 as char
    else if t[1] == 'n' then 10 as char
    else if t[1] == 'r' then 13 as char
    else if t[1] == 't' then 9 as char
    else t[1]
  }

  predicate GoodTokens(tokens: seq<string>) {
    forall i | 0 <= i < |tokens| :: GoodToken(tokens[i])
  }

  function Glued(tokens: seq<string>): string {
    if tokens == [] then "" else tokens[0] + Glued(tokens[1..])
  }

  function Chars(tokens: seq<string>): string
    requires GoodTokens(tokens)
  {
    if tokens == [] then "" else [TokenChar(tokens[0])] + Chars(tokens[1..])
  }

  predicate GoodStr(s: Str) { Blank(s.before) && GoodTokens(s.tokens) }

  function StrText(s: Str): string { s.before + ("\"" + (Glued(s.tokens) + "\"")) }

  predicate Digits(s: string) { forall i | 0 <= i < |s| :: '0' <= s[i] <= '9' }

  function NumberOf(digits: string): nat
    requires Digits(digits)
  {
    if digits == "" then 0 else 10 * NumberOf(digits[..|digits| - 1]) + (digits[|digits| - 1] as nat - 48)
  }

  predicate GoodNum(n: Num) {
    Blank(n.before) && Blank(n.after) && n.digits != "" && Digits(n.digits) && NumberOf(n.digits) < 0x1_0000_0000
  }

  predicate GoodNums(items: seq<Num>) { forall i | 0 <= i < |items| :: GoodNum(items[i]) }

  function NumsOf(items: seq<Num>): seq<nat>
    requires GoodNums(items)
  {
    if items == [] then [] else [NumberOf(items[0].digits)] + NumsOf(items[1..])
  }

  /** The numbers of an array that is not empty, and its closing bracket. */
  function ItemsText(items: seq<Num>): string
    requires items != []
  {
    items[0].before + (items[0].digits + (items[0].after + (if |items| == 1 then "]" else "," + ItemsText(items[1..]))))
  }

  predicate GoodVal(v: Val) {
    match v
    case StrVal(s) => GoodStr(s)
    case NumVal(before, blank, items) => Blank(before) && Blank(blank) && GoodNums(items)
  }

  function ValText(v: Val): string {
    match v
    case StrVal(s) => StrText(s)
    case NumVal(before, blank, items) => before + ("[" + (if items == [] then blank + "]" else ItemsText(items)))
  }

  function ValueOf(v: Val): Value
    requires GoodVal(v)
  {
    match v
    case StrVal(s) => Text(Chars(s.tokens))
    case NumVal(_, _, items) => Numbers(NumsOf(items))
  }

  predicate GoodFld(f: Fld) { GoodStr(f.key) && Blank(f.colon) && GoodVal(f.value) && Blank(f.after) }

  predicate GoodFlds(fields: seq<Fld>) { forall i | 0 <= i < |fields| :: GoodFld(fields[i]) }

  function FldText(f: Fld): string { StrText(f.key) + (f.colon + (":" + ValText(f.value))) }

  function FieldOf(f: Fld): Field
    requires GoodFld(f)
  {
    Field(Chars(f.key.tokens), ValueOf(f.value))
  }

  function FieldsOf(fields: seq<Fld>): seq<Field>
    requires GoodFlds(fields)
  {
    if fields == [] then [] else [FieldOf(fields[0])] + FieldsOf(fields[1..])
  }

  function FldsText(fields: seq<Fld>, after: string): string
    requires fields != []
  {
    FldText(fields[0]) + (fields[0].after + (if |fields| == 1 then "}" + after else "," + FldsText(fields[1..], after)))
  }

  predicate GoodObj(o: Obj) { Blank(o.before) && Blank(o.blank) && GoodFlds(o.fields) && Blank(o.after) }

  function ObjText(o: Obj): string {
    o.before + ("{" + (if o.fields == [] then o.blank + ("}" + o.after) else FldsText(o.fields, o.after)))
  }

  // Space ----------------------------------------------------------------------------------

  predicate Solid(s: string) { s == "" || !(s[0] == ' ' || '\t' <= s[0] <= '\r') }

  lemma {:induction false} SkipSplits(s: string) returns (space: string)
    ensures Blank(space) && s == space + SkipSpace(s) && Solid(SkipSpace(s))
  {
    if s != "" && IsSpace(s[0]) {
      var more := SkipSplits(s[1..]);
      space := [s[0]] + more;
    } else {
      space := "";
    }
  }

  lemma {:induction false} SkipBlank(space: string, s: string)
    requires Blank(space) && Solid(s)
    ensures SkipSpace(space + s) == s
  {
    if space == "" {
      assert "" + s == s;
    } else {
      assert IsSpace(space[0]) && (space + s)[1..] == space[1..] + s;
      SkipBlank(space[1..], s);
    }
  }

  // Strings --------------------------------------------------------------------------------

  lemma HexIsValue(c: char)
    ensures HexValue(c) == if Hex(c) < 16 then Some(Hex(c)) else None
  {
  }

  lemma FourDigits(digits: string)
    requires |digits| == 4
    ensures CodePoint(digits) ==
      if Hex(digits[0]) < 16 && Hex(digits[1]) < 16 && Hex(digits[2]) < 16 && Hex(digits[3]) < 16
      then Some(4096 * Hex(digits[0]) + 256 * Hex(digits[1]) + 16 * Hex(digits[2]) + Hex(digits[3])) else None
  {
    HexIsValue(digits[0]);
    HexIsValue(digits[1]);
    HexIsValue(digits[2]);
    HexIsValue(digits[3]);
    var three, two, one := digits[..3], digits[..2], digits[..1];
    assert three[..2] == two && two[..1] == one && one[..0] == "";
    assert CodePoint("") == Some(0);
    assert CodePoint(one) == if Hex(digits[0]) < 16 then Some(Hex(digits[0])) else None;
    assert CodePoint(two) == if Hex(digits[0]) < 16 && Hex(digits[1]) < 16 then Some(16 * Hex(digits[0]) + Hex(digits[1])) else None;
  }

  lemma OneReads(t: string, rest: string)
    requires GoodToken(t)
    ensures ParseOne(t + rest) == Got(TokenChar(t), rest) && t[0] != '"'
  {
    var s := t + rest;
    if |t| == 1 {
      assert s[1..] == rest;
    } else if |t| == 2 {
      assert s[2..] == rest;
    } else {
      assert s[2..6] == t[2..6] && s[6..] == rest;
      FourDigits(t[2..6]);
    }
  }

  lemma OneRead(s: string) returns (t: string)
    requires s != "" && s[0] != '"' && ParseOne(s).Got?
    ensures GoodToken(t) && s == t + ParseOne(s).rest && TokenChar(t) == ParseOne(s).value
  {
    if s[0] != '\\' {
      t := s[..1];
    } else if s[1] != 'u' {
      t := s[..2];
    } else {
      t := s[..6];
      FourDigits(s[2..6]);
    }
  }

  lemma {:induction false} CharsRead(tokens: seq<string>, rest: string)
    requires GoodTokens(tokens)
    ensures ParseChars(Glued(tokens) + ("\"" + rest)) == Got(Chars(tokens), rest)
    decreases |tokens|
  {
    var s := Glued(tokens) + ("\"" + rest);
    if tokens == [] {
      assert s[1..] == rest;
    } else {
      var tail := Glued(tokens[1..]) + ("\"" + rest);
      assert s == tokens[0] + tail;
      OneReads(tokens[0], tail);
      CharsRead(tokens[1..], rest);
    }
  }

  lemma {:induction false} CharsAreRead(s: string) returns (tokens: seq<string>)
    requires ParseChars(s).Got?
    ensures GoodTokens(tokens) && s == Glued(tokens) + ("\"" + ParseChars(s).rest) && Chars(tokens) == ParseChars(s).value
    decreases |s|
  {
    if s[0] == '"' {
      tokens := [];
    } else {
      var t := OneRead(s);
      var tail := ParseOne(s).rest;
      var more := CharsAreRead(tail);
      tokens := [t] + more;
      assert tokens[1..] == more;
      Assoc(t, Glued(more), "\"" + ParseChars(tail).rest);
    }
  }

  lemma StrReads(str: Str, rest: string)
    requires GoodStr(str)
    ensures ParseString(StrText(str) + rest) == Got(Chars(str.tokens), rest)
  {
    var inside := Glued(str.tokens) + ("\"" + rest);
    assert StrText(str) + rest == str.before + ("\"" + inside);
    SkipBlank(str.before, "\"" + inside);
    assert ("\"" + inside)[1..] == inside;
    CharsRead(str.tokens, rest);
  }

  lemma StrIsRead(s: string) returns (str: Str)
    requires ParseString(s).Got?
    ensures GoodStr(str) && s == StrText(str) + ParseString(s).rest && Chars(str.tokens) == ParseString(s).value
  {
    var before := SkipSplits(s);
    var t := SkipSpace(s);
    var tokens := CharsAreRead(t[1..]);
    str := Str(before, tokens);
    assert t == "\"" + t[1..];
    StrParts(before, Glued(tokens), ParseString(s).rest);
  }

  lemma StrParts(before: string, glued: string, rest: string)
    ensures before + ("\"" + (glued + ("\"" + rest))) == (before + ("\"" + (glued + "\""))) + rest
  {
  }

  // Numbers --------------------------------------------------------------------------------

  predicate EndsDigits(s: string) { s == "" || !('0' <= s[0] <= '9') }

  lemma {:induction false} CountStops(digits: string, rest: string)
    requires Digits(digits) && EndsDigits(rest)
    ensures CountDigits(digits + rest) == |digits|
  {
    if digits == "" {
      assert "" + rest == rest;
    } else {
      assert (digits + rest)[1..] == digits[1..] + rest;
      CountStops(digits[1..], rest);
    }
  }

  lemma {:induction false} CountEnds(s: string)
    ensures Digits(s[..CountDigits(s)]) && EndsDigits(s[CountDigits(s)..])
  {
    if s != "" && IsDigit(s[0]) {
      CountEnds(s[1..]);
      var n := CountDigits(s[1..]);
      assert s[..n + 1] == [s[0]] + s[1..][..n] && s[n + 1..] == s[1..][n..];
    }
  }

  /** The overflow test along the way is a test of the number. */
  lemma {:induction false} ValueIsNumber(digits: string)
    requires Digits(digits)
    ensures forall i | 0 <= i < |digits| :: IsDigit(digits[i])
    ensures DigitsValue(digits) == if NumberOf(digits) < 0x1_0000_0000 then Some(NumberOf(digits)) else None
  {
    if digits != "" {
      ValueIsNumber(digits[..|digits| - 1]);
    }
  }

  lemma UnsignedReads(digits: string, rest: string)
    requires digits != "" && Digits(digits) && NumberOf(digits) < 0x1_0000_0000 && EndsDigits(rest)
    ensures SkipSpace(digits + rest) == digits + rest && ParseUnsigned(digits + rest) == Got(NumberOf(digits), rest)
  {
    var t := digits + rest;
    CountStops(digits, rest);
    ValueIsNumber(digits);
    assert t[..|digits|] == digits && t[|digits|..] == rest;
  }

  lemma SkipBefore(space: string, s: string)
    requires Blank(space) && Solid(s)
    ensures ParseUnsigned(space + s) == ParseUnsigned(s) && ParseString(space + s) == ParseString(s)
    ensures ParseElements(space + s) == ParseElements(s) && ParseFields(space + s) == ParseFields(s)
    ensures ParseValue(space + s) == ParseValue(s)
  {
    SkipBlank(space, s);
    SkipBlank("", s);
    assert "" + s == s;
    assert ParseField(space + s) == ParseField(s);
  }

  /** Reading may start behind the space. */
  lemma SkipFirst(s: string)
    ensures ParseElements(SkipSpace(s)) == ParseElements(s) && ParseFields(SkipSpace(s)) == ParseFields(s)
  {
    var space := SkipSplits(s);
    SkipBefore(space, SkipSpace(s));
  }

  lemma NumReads(n: Num, rest: string)
    requires GoodNum(n) && Solid(rest) && EndsDigits(rest)
    ensures var s := n.before + (n.digits + (n.after + rest));
      ParseUnsigned(s) == Got(NumberOf(n.digits), n.after + rest) && SkipSpace(n.after + rest) == rest
  {
    assert EndsDigits(n.after + rest);
    UnsignedReads(n.digits, n.after + rest);
    SkipBefore(n.before, n.digits + (n.after + rest));
    SkipBlank(n.after, rest);
  }

  lemma UnsignedIsRead(t: string)
    requires SkipSpace(t) == t && ParseUnsigned(t).Got?
    ensures var k := CountDigits(t);
      && k > 0 && Digits(t[..k]) && NumberOf(t[..k]) < 0x1_0000_0000
      && ParseUnsigned(t) == Got(NumberOf(t[..k]), t[k..])
  {
    CountEnds(t);
    ValueIsNumber(t[..CountDigits(t)]);
  }

  lemma SkipTwice(s: string)
    ensures SkipSpace(SkipSpace(s)) == SkipSpace(s) && ParseUnsigned(SkipSpace(s)) == ParseUnsigned(s)
  {
    var space := SkipSplits(s);
    SkipBlank("", SkipSpace(s));
    assert "" + SkipSpace(s) == SkipSpace(s);
  }

  /** A number read, with the space before and behind it. */
  lemma NumIsRead(s: string) returns (n: Num)
    requires ParseUnsigned(s).Got?
    ensures GoodNum(n) && NumberOf(n.digits) == ParseUnsigned(s).value
    ensures s == n.before + (n.digits + (n.after + SkipSpace(ParseUnsigned(s).rest)))
  {
    var before := SkipSplits(s);
    var t := SkipSpace(s);
    SkipTwice(s);
    UnsignedIsRead(t);
    var digits, rest := t[..CountDigits(t)], t[CountDigits(t)..];
    var after := SkipSplits(rest);
    n := Num(before, digits, after);
    assert t == digits + rest;
  }

  // Arrays ---------------------------------------------------------------------------------

  lemma ItemsParts(first: Num, more: string, rest: string)
    ensures (first.before + (first.digits + (first.after + more))) + rest
         == first.before + (first.digits + (first.after + (more + rest)))
  {
  }

  lemma {:induction false} ItemsRead(items: seq<Num>, rest: string)
    requires items != [] && GoodNums(items)
    ensures ParseElements(ItemsText(items) + rest) == Got(NumsOf(items), rest)
    decreases |items|
  {
    var n := items[0];
    if |items| == 1 {
      ItemsParts(n, "]", rest);
      NumReads(n, "]" + rest);
      assert ("]" + rest)[1..] == rest && items[1..] == [];
      assert NumsOf(items) == [NumberOf(n.digits)];
    } else {
      var tail := ItemsText(items[1..]) + rest;
      ItemsParts(n, "," + ItemsText(items[1..]), rest);
      assert ("," + ItemsText(items[1..])) + rest == "," + tail;
      NumReads(n, "," + tail);
      assert ("," + tail)[1..] == tail;
      ItemsRead(items[1..], rest);
    }
  }

  lemma {:induction false} ItemsAreRead(s: string) returns (items: seq<Num>)
    requires ParseElements(s).Got?
    ensures items != [] && GoodNums(items) && s == ItemsText(items) + ParseElements(s).rest
    ensures NumsOf(items) == ParseElements(s).value
    decreases |s|
  {
    var n := NumIsRead(s);
    var t := SkipSpace(ParseUnsigned(s).rest);
    if t[0] == ']' {
      items := [n];
      assert t == "]" + t[1..] && items[1..] == [];
      ItemsParts(n, "]", t[1..]);
    } else {
      var more := ItemsAreRead(t[1..]);
      items := [n] + more;
      assert items[1..] == more && t == "," + t[1..];
      ItemsParts(n, "," + ItemsText(more), ParseElements(s).rest);
      assert ("," + ItemsText(more)) + ParseElements(s).rest == "," + (ItemsText(more) + ParseElements(s).rest);
    }
  }

  lemma CharReads(space: string, c: char, rest: string)
    requires Blank(space) && Solid([c])
    ensures ParseChar(space + ([c] + rest), c) == Got((), rest)
  {
    SkipBlank(space, [c] + rest);
    assert ([c] + rest)[1..] == rest;
  }

  lemma CharIsRead(s: string, c: char) returns (space: string)
    requires ParseChar(s, c).Got?
    ensures Blank(space) && s == space + ([c] + ParseChar(s, c).rest)
  {
    space := SkipSplits(s);
    var t := SkipSpace(s);
    assert t == [c] + t[1..];
  }

  lemma ArrayParts(before: string, inside: string, rest: string)
    ensures (before + ("[" + inside)) + rest == before + ("[" + (inside + rest))
  {
  }

  lemma ItemsStart(items: seq<Num>, rest: string)
    requires items != [] && GoodNums(items)
    ensures var t := SkipSpace(ItemsText(items) + rest); t != "" && t[0] != ']'
  {
    var n := items[0];
    var more := if |items| == 1 then "]" else "," + ItemsText(items[1..]);
    ItemsParts(n, more, rest);
    SkipBlank(n.before, n.digits + (n.after + (more + rest)));
  }

  lemma ArrayReads(before: string, blank: string, items: seq<Num>, rest: string)
    requires GoodVal(NumVal(before, blank, items))
    ensures ParseArray(ValText(NumVal(before, blank, items)) + rest) == Got(NumsOf(items), rest)
  {
    var inside := if items == [] then blank + "]" else ItemsText(items);
    ArrayParts(before, inside, rest);
    CharReads(before, '[', inside + rest);
    if items == [] {
      assert inside + rest == blank + ("]" + rest) && ("]" + rest)[1..] == rest;
      SkipBlank(blank, "]" + rest);
    } else {
      ItemsStart(items, rest);
      ItemsRead(items, rest);
      SkipFirst(inside + rest);
    }
  }

  lemma ArrayIsRead(s: string) returns (v: Val)
    requires ParseArray(s).Got?
    ensures GoodVal(v) && v.NumVal? && s == ValText(v) + ParseArray(s).rest && NumsOf(v.items) == ParseArray(s).value
  {
    var before := CharIsRead(s, '[');
    var inside := ParseChar(s, '[').rest;
    var t := SkipSpace(inside);
    if t != "" && t[0] == ']' {
      var blank := SkipSplits(inside);
      v := NumVal(before, blank, []);
      assert t == "]" + t[1..];
      assert inside == (blank + "]") + t[1..];
      ArrayParts(before, blank + "]", t[1..]);
    } else {
      SkipFirst(inside);
      var items := ItemsAreRead(inside);
      v := NumVal(before, "", items);
      ArrayParts(before, ItemsText(items), ParseArray(s).rest);
    }
  }

  // Values and fields ----------------------------------------------------------------------

  lemma ValueAt(before: string, c: char, rest: string)
    requires Blank(before) && Solid([c])
    ensures SkipSpace(before + ([c] + rest)) == [c] + rest
  {
    SkipBlank(before, [c] + rest);
  }

  lemma ValReads(v: Val, rest: string)
    requires GoodVal(v)
    ensures ParseValue(ValText(v) + rest) == Got(ValueOf(v), rest)
  {
    match v
    case StrVal(str) =>
      var inside := Glued(str.tokens) + ("\"" + rest);
      StrParts(str.before, Glued(str.tokens), rest);
      ValueAt(str.before, '"', inside);
      StrReads(str, rest);
      SkipBefore(str.before, ['"'] + inside);
    case NumVal(before, blank, items) =>
      var inside := if items == [] then blank + "]" else ItemsText(items);
      ArrayParts(before, inside, rest);
      ValueAt(before, '[', inside + rest);
      ArrayReads(before, blank, items, rest);
      ArraySkips(before, ['['] + (inside + rest));
  }

  lemma ArraySkips(space: string, s: string)
    requires Blank(space) && Solid(s)
    ensures ParseArray(space + s) == ParseArray(s)
  {
    SkipBlank(space, s);
    SkipBlank("", s);
    assert "" + s == s;
  }

  lemma ValIsRead(s: string) returns (v: Val)
    requires ParseValue(s).Got?
    ensures GoodVal(v) && s == ValText(v) + ParseValue(s).rest && ValueOf(v) == ParseValue(s).value
  {
    var space := SkipSplits(s);
    var t := SkipSpace(s);
    if t[0] == '"' {
      SkipBefore(space, t);
      var str := StrIsRead(s);
      v := StrVal(str);
    } else {
      ArraySkips(space, t);
      v := ArrayIsRead(s);
    }
  }

  lemma FldParts(key: string, colon: string, value: string, rest: string)
    ensures (key + (colon + (":" + value))) + rest == key + (colon + (":" + (value + rest)))
  {
  }

  lemma FldReads(f: Fld, rest: string)
    requires GoodFld(f)
    ensures ParseField(FldText(f) + rest) == Got(FieldOf(f), rest)
  {
    FldParts(StrText(f.key), f.colon, ValText(f.value), rest);
    StrReads(f.key, f.colon + (":" + (ValText(f.value) + rest)));
    CharReads(f.colon, ':', ValText(f.value) + rest);
    ValReads(f.value, rest);
  }

  lemma FldIsRead(s: string) returns (f: Fld)
    requires ParseField(s).Got?
    ensures GoodFld(f) && s == FldText(f) + (f.after + SkipSpace(ParseField(s).rest)) && FieldOf(f) == ParseField(s).value
  {
    var key := StrIsRead(s);
    var afterKey := ParseString(s).rest;
    var colon := CharIsRead(afterKey, ':');
    var value := ValIsRead(ParseChar(afterKey, ':').rest);
    var after := SkipSplits(ParseField(s).rest);
    f := Fld(key, colon, value, after);
    FldParts(StrText(key), colon, ValText(value), ParseField(s).rest);
  }

  // Objects --------------------------------------------------------------------------------

  lemma FldsParts(f: Fld, more: string)
    ensures FldText(f) + (f.after + more) == (FldText(f) + f.after) + more
  {
  }

  lemma BlankEnds(after: string)
    requires Blank(after)
    ensures SkipSpace(after) == ""
  {
    SkipBlank(after, "");
    assert after + "" == after;
  }

  lemma {:induction false} FldsRead(fields: seq<Fld>, after: string)
    requires fields != [] && GoodFlds(fields) && Blank(after)
    ensures ParseFields(FldsText(fields, after)) == Got(FieldsOf(fields), "")
    decreases |fields|
  {
    var f := fields[0];
    var more := if |fields| == 1 then "}" + after else "," + FldsText(fields[1..], after);
    FldReads(f, f.after + more);
    SkipBlank(f.after, more);
    if |fields| == 1 {
      assert more[1..] == after && fields[1..] == [];
      BlankEnds(after);
      assert FieldsOf(fields) == [FieldOf(f)];
    } else {
      assert more[1..] == FldsText(fields[1..], after);
      FldsRead(fields[1..], after);
    }
  }

  lemma FldsCons(f: Fld, more: seq<Fld>, after: string)
    requires GoodFld(f) && more != [] && GoodFlds(more)
    ensures var fields := [f] + more;
      && GoodFlds(fields) && FieldsOf(fields) == [FieldOf(f)] + FieldsOf(more)
      && FldsText(fields, after) == FldText(f) + (f.after + ("," + FldsText(more, after)))
  {
    assert ([f] + more)[1..] == more;
  }

  lemma FldsOne(f: Fld, after: string)
    requires GoodFld(f)
    ensures GoodFlds([f]) && FieldsOf([f]) == [FieldOf(f)] && FldsText([f], after) == FldText(f) + (f.after + ("}" + after))
  {
    assert [f][1..] == [];
    assert FieldsOf([]) == [];
  }

  /** One field of several, or the last one and the end of the object. */
  lemma FieldsStep(s: string)
    requires ParseFields(s).Got?
    ensures ParseField(s).Got? && SkipSpace(ParseField(s).rest) != ""
    ensures var t, p := SkipSpace(ParseField(s).rest), ParseFields(s);
      if t[0] == '}' then SkipSpace(t[1..]) == "" && p == Got([ParseField(s).value], "")
      else t[0] == ',' && ParseFields(t[1..]).Got? && p.value == [ParseField(s).value] + ParseFields(t[1..]).value
           && p.rest == ParseFields(t[1..]).rest
  {
  }

  lemma {:induction false} FldsAreRead(s: string) returns (fields: seq<Fld>, after: string)
    requires ParseFields(s).Got?
    ensures fields != [] && GoodFlds(fields) && Blank(after) && s == FldsText(fields, after)
    ensures FieldsOf(fields) == ParseFields(s).value && ParseFields(s).rest == ""
    decreases |s|
  {
    FieldsStep(s);
    var f := FldIsRead(s);
    var t := SkipSpace(ParseField(s).rest);
    if t[0] == '}' {
      fields := [f];
      after := SkipSplits(t[1..]);
      assert after + "" == after && t == "}" + after;
      FldsOne(f, after);
    } else {
      var more;
      more, after := FldsAreRead(t[1..]);
      fields := [f] + more;
      assert t == "," + t[1..];
      FldsCons(f, more, after);
    }
  }

  lemma FldsStart(fields: seq<Fld>, after: string)
    requires fields != [] && GoodFlds(fields)
    ensures var t := SkipSpace(FldsText(fields, after)); t != "" && t[0] != '}'
  {
    var f := fields[0];
    var more := f.after + (if |fields| == 1 then "}" + after else "," + FldsText(fields[1..], after));
    var inside := Glued(f.key.tokens) + ("\"" + (f.colon + (":" + (ValText(f.value) + more))));
    FldParts(StrText(f.key), f.colon, ValText(f.value), more);
    StrParts(f.key.before, Glued(f.key.tokens), f.colon + (":" + (ValText(f.value) + more)));
    SkipBlank(f.key.before, "\"" + inside);
  }

  lemma ObjReads(o: Obj)
    requires GoodObj(o)
    ensures ParseObject(ObjText(o)) == Got(FieldsOf(o.fields), "")
  {
    var inside := if o.fields == [] then o.blank + ("}" + o.after) else FldsText(o.fields, o.after);
    CharReads(o.before, '{', inside);
    if o.fields == [] {
      SkipBlank(o.blank, "}" + o.after);
      assert ("}" + o.after)[1..] == o.after;
      BlankEnds(o.after);
    } else {
      FldsStart(o.fields, o.after);
      FldsRead(o.fields, o.after);
      SkipFirst(inside);
    }
  }

  lemma ObjIsRead(s: string) returns (o: Obj)
    requires ParseObject(s).Got?
    ensures GoodObj(o) && s == ObjText(o) && FieldsOf(o.fields) == ParseObject(s).value && ParseObject(s).rest == ""
  {
    var before := CharIsRead(s, '{');
    var inside := ParseChar(s, '{').rest;
    var t := SkipSpace(inside);
    if t != "" && t[0] == '}' {
      var blank := SkipSplits(inside);
      var after := SkipSplits(t[1..]);
      o := Obj(before, blank, [], after);
      assert after + "" == after && t == "}" + after;
    } else {
      SkipFirst(inside);
      var fields, after := FldsAreRead(inside);
      o := Obj(before, "", fields, after);
    }
  }

  ghost predicate Means(s: string, fields: seq<Field>) {
    exists o: Obj :: GoodObj(o) && ObjText(o) == s && FieldsOf(o.fields) == fields
  }

  /** The parser accepts exactly the texts of the language and gives their fields. */
  lemma ParserIsExact(s: string, fields: seq<Field>)
    ensures ParseObject(s) == Got(fields, "") <==> Means(s, fields)
  {
    if ParseObject(s) == Got(fields, "") {
      var o := ObjIsRead(s);
      assert GoodObj(o) && ObjText(o) == s && FieldsOf(o.fields) == fields;
    }
    if Means(s, fields) {
      var o: Obj :| GoodObj(o) && ObjText(o) == s && FieldsOf(o.fields) == fields;
      ObjReads(o);
    }
  }

  /** A text means one list of fields at most. */
  lemma MeaningIsUnique(s: string, a: seq<Field>, b: seq<Field>)
    requires Means(s, a) && Means(s, b)
    ensures a == b
  {
    ParserIsExact(s, a);
    ParserIsExact(s, b);
  }
}
