/** The database file as lines: exactly which texts are read, and as what, and where edits go. */
module ConfigFile {
  import opened Base
  import opened ConfigSpec
  import opened ConfigTheorems
  import opened ConfigText
  import Json = JsonlSpec
  import Grammar = JsonlGrammar

  // One record -----------------------------------------------------------------------------

  ghost predicate RecordFrom(line: string, fields: seq<Json.Field>, c: Config) {
    Grammar.Means(line, fields) && exists i: nat, j: nat, k: nat :: RecordOf(c, fields, i, j, k)
  }

  /** The line is an object of the record format with the fields of record `c`. */
  ghost predicate RecordIn(line: string, c: Config) {
    exists fields :: RecordFrom(line, fields, c)
  }

  lemma {:induction false} FirstIsLeast(a: seq<nat>)
    requires Increasing(a)
    ensures forall x | x in a :: a[0] <= x
  {
    if |a| > 1 {
      FirstIsLeast(a[1..]);
      assert a == [a[0]] + a[1..];
    }
  }

  lemma SameTails(x: nat, p: multiset<nat>, q: multiset<nat>)
    requires multiset{x} + p == multiset{x} + q
    ensures p == q
  {
    assert p == (multiset{x} + p) - multiset{x};
    assert q == (multiset{x} + q) - multiset{x};
  }

  lemma HeadAndTail(a: seq<nat>)
    requires a != []
    ensures multiset(a) == multiset{a[0]} + multiset(a[1..]) && a == [a[0]] + a[1..]
  {
    assert a == [a[0]] + a[1..];
  }

  lemma {:induction false} IncreasingIsUnique(a: seq<nat>, b: seq<nat>)
    requires Increasing(a) && Increasing(b) && multiset(a) == multiset(b)
    ensures a == b
    decreases |a|
  {
    if a != [] {
      assert |multiset(a)| == |a| && |multiset(b)| == |b|;
      assert a[0] in multiset(b) && a[0] in b;
      assert b[0] in multiset(a) && b[0] in a;
      FirstIsLeast(a);
      FirstIsLeast(b);
      HeadAndTail(a);
      HeadAndTail(b);
      assert a[0] == b[0];
      SameTails(a[0], multiset(a[1..]), multiset(b[1..]));
      IncreasingIsUnique(a[1..], b[1..]);
    } else {
      assert |multiset(b)| == |b|;
    }
  }

  /** The fields determine the record. */
  lemma RecordIsUnique(a: Config, b: Config, fields: seq<Json.Field>, i: nat, j: nat, k: nat, i': nat, j': nat, k': nat)
    requires RecordOf(a, fields, i, j, k) && RecordOf(b, fields, i', j', k')
    ensures a == b
  {
    assert i == i' && j == j' && k == k';
    assert a.address == b.address;
    IncreasingIsUnique(a.ports, b.ports);
  }

  lemma LineIsExact(line: string, c: Config)
    ensures ParseRecord(line) == Ok(c) <==> RecordIn(line, c)
  {
    if ParseRecord(line) == Ok(c) {
      var fields := Json.ParseObject(line).value;
      var o := Grammar.ObjIsRead(line);
      Grammar.ParserIsExact(line, fields);
      var i, j, k := ReadIsRecord(fields);
      assert RecordFrom(line, fields, c);
    }
    if RecordIn(line, c) {
      var fields :| RecordFrom(line, fields, c);
      var i: nat, j: nat, k: nat :| RecordOf(c, fields, i, j, k);
      Grammar.ParserIsExact(line, fields);
      ReadingIsExact(fields);
      var i', j', k' := ReadIsRecord(fields);
      RecordIsUnique(c, ReadRecord(fields).value, fields, i, j, k, i', j', k');
    }
  }

  // Lines ----------------------------------------------------------------------------------

  /** No record has the address. */
  predicate Lacks(db: seq<Config>, address: string) {
    forall m | 0 <= m < |db| :: db[m].address != address
  }

  /** A line without the carriage return it may end with. */
  function Stripped(raw: string): string {
    if raw != "" && raw[|raw| - 1] == 13 as char then raw[..|raw| - 1] else raw
  }

  /** The line adds its record, whose address is new. */
  ghost predicate AddsRecord(line: string, before: seq<Config>, after: seq<Config>) {
    && |after| == |before| + 1 && after[..|before|] == before && RecordIn(line, after[|before|])
    && Lacks(before, after[|before|].address)
  }

  /** An empty line adds nothing; any other adds a record. */
  ghost predicate Adds(raw: string, before: seq<Config>, after: seq<Config>) {
    if Stripped(raw) == "" then after == before else AddsRecord(Stripped(raw), before, after)
  }

  /** The lines, one after the other, lead from the records `before` to the records `after`. */
  ghost predicate Reads(lines: seq<string>, before: seq<Config>, after: seq<Config>)
    decreases |lines|
  {
    if lines == [] then after == before
    else exists mid :: Adds(lines[0], before, mid) && Reads(lines[1..], mid, after)
  }

  lemma OneLineIsExact(raw: string, before: seq<Config>, after: seq<Config>)
    ensures ReadLine(before, raw) == Ok(after) <==> Adds(raw, before, after)
  {
    var line := Stripped(raw);
    if line != "" {
      if ReadLine(before, raw) == Ok(after) {
        ReadIsAdded(line, before, ParseRecord(line).value);
      }
      if AddsRecord(line, before, after) {
        AddedIsRead(line, before, after);
      }
    }
  }

  lemma ReadIsAdded(line: string, before: seq<Config>, c: Config)
    requires ParseRecord(line) == Ok(c) && Lookup(before, c.address) == |before|
    ensures AddsRecord(line, before, before + [c])
  {
    LineIsExact(line, c);
  }

  lemma AddedIsRead(line: string, before: seq<Config>, after: seq<Config>)
    requires AddsRecord(line, before, after)
    ensures ParseRecord(line) == Ok(after[|before|]) && after == before + [after[|before|]]
  {
    LineIsExact(line, after[|before|]);
    OneLonger(before, after);
  }

  lemma OneLonger(before: seq<Config>, after: seq<Config>)
    requires |after| == |before| + 1 && after[..|before|] == before
    ensures after == before + [after[|before|]]
  {
  }

  predicate Unbroken(line: string) { forall i | 0 <= i < |line| :: line[i] != '\n' }

  /** Each line ends with a line break, except perhaps the last, which is then not empty. */
  predicate AreLines(lines: seq<string>, ended: bool) {
    && (forall i | 0 <= i < |lines| :: Unbroken(lines[i]))
    && (!ended ==> lines != [] && lines[|lines| - 1] != "")
  }

  function FileText(lines: seq<string>, ended: bool): string {
    if lines == [] then ""
    else if |lines| == 1 && !ended then lines[0]
    else lines[0] + ("\n" + FileText(lines[1..], ended))
  }

  lemma FirstLine(line: string, rest: string)
    requires Unbroken(line)
    ensures var text := line + ("\n" + rest);
      LineLength(text) == |line| && text[..|line|] == line && text[|line| + 1..] == rest && text != ""
  {
    var text := line + ("\n" + rest);
    assert text[|line|] == '\n';
    assert forall i | 0 <= i < |line| :: text[i] == line[i];
  }

  lemma LastLine(line: string)
    requires Unbroken(line)
    ensures LineLength(line) == |line| && line[..|line|] == line
  {
  }

  /** The first line, and the text behind it. */
  lemma FirstOfFile(lines: seq<string>, ended: bool, before: seq<Config>)
    requires AreLines(lines, ended) && lines != []
    ensures AreLines(lines[1..], ended || |lines| == 1)
    ensures ReadLines(before, FileText(lines, ended)) ==
      match ReadLine(before, lines[0])
      case Err(e) => Err(e)
      case Ok(mid) => ReadLines(mid, FileText(lines[1..], ended || |lines| == 1))
  {
    if |lines| == 1 && !ended {
      LastLine(lines[0]);
    } else {
      FirstLine(lines[0], FileText(lines[1..], ended));
    }
  }

  lemma {:induction false} LinesRead(lines: seq<string>, ended: bool, before: seq<Config>, after: seq<Config>)
    requires AreLines(lines, ended) && Reads(lines, before, after)
    ensures ReadLines(before, FileText(lines, ended)) == Ok(after)
    decreases |lines|
  {
    if lines != [] {
      FirstOfFile(lines, ended, before);
      var mid :| Adds(lines[0], before, mid) && Reads(lines[1..], mid, after);
      OneLineIsExact(lines[0], before, mid);
      LinesRead(lines[1..], ended || |lines| == 1, mid, after);
    }
  }

  lemma {:induction false} LinesAreRead(lines: seq<string>, ended: bool, before: seq<Config>, after: seq<Config>)
    requires AreLines(lines, ended) && ReadLines(before, FileText(lines, ended)) == Ok(after)
    ensures Reads(lines, before, after)
    decreases |lines|
  {
    if lines != [] {
      FirstOfFile(lines, ended, before);
      var mid := ReadLine(before, lines[0]).value;
      OneLineIsExact(lines[0], before, mid);
      LinesAreRead(lines[1..], ended || |lines| == 1, mid, after);
    }
  }

  lemma {:induction false} EveryTextIsLines(text: string) returns (lines: seq<string>, ended: bool)
    ensures AreLines(lines, ended) && FileText(lines, ended) == text
    decreases |text|
  {
    var n := LineLength(text);
    if text == "" {
      lines, ended := [], true;
    } else if n == |text| {
      lines, ended := [text], false;
    } else {
      var more;
      more, ended := EveryTextIsLines(text[n + 1..]);
      lines := [text[..n]] + more;
      assert lines[1..] == more && text == text[..n] + ("\n" + text[n + 1..]);
    }
  }

  /** A file is read exactly when each of its lines is empty or a record with an address of its own. */
  lemma FileIsExact(lines: seq<string>, ended: bool, db: seq<Config>)
    requires AreLines(lines, ended)
    ensures ParseDb(FileText(lines, ended)) == Ok(db) <==> Reads(lines, [], db)
  {
    if Reads(lines, [], db) { LinesRead(lines, ended, [], db); }
    if ParseDb(FileText(lines, ended)) == Ok(db) { LinesAreRead(lines, ended, [], db); }
  }

  // Edits ----------------------------------------------------------------------------------

  predicate HasAddress(db: seq<Config>, address: string, i: nat) {
    i < |db| && db[i].address == address
  }

  /** A record takes the place of the one with its address, and goes to the end if there is none. */
  lemma UpsertStands(db: seq<Config>, c: Config) returns (i: nat)
    requires WellFormed(db) && IsAddress(c.address)
    requires Distinct(c.ports) && forall m | 0 <= m < |c.ports| :: c.ports[m] < 4
    ensures Upsert(db, c).Ok?
    ensures var after := Upsert(db, c).value;
      i < |after| && IsSmallOf(after[i].address, c.address) && after[i].profile == c.profile
      && Increasing(after[i].ports) && multiset(after[i].ports) == multiset(c.ports)
      && (if HasAddress(db, after[i].address, i) then after == db[i := after[i]]
          else i == |db| && after == db + [after[i]] && Lacks(db, after[i].address))
  {
    NormalizeIsExact(c.address);
    PortsAreGood(c.ports);
    i := Lookup(db, Checked(c).value.address);
  }

  lemma {:induction false} WithoutAbsent(db: seq<Config>, address: string)
    requires Lacks(db, address)
    ensures Without(db, address) == db
    decreases |db|
  {
    if db != [] {
      WithoutAbsent(db[..|db| - 1], address);
    }
  }

  lemma {:induction false} WithoutStands(db: seq<Config>, address: string, i: nat)
    requires WellFormed(db) && HasAddress(db, address, i)
    ensures Without(db, address) == db[..i] + db[i + 1..]
    decreases |db|
  {
    var n := |db| - 1;
    if i == n {
      forall m | 0 <= m < n
        ensures db[..n][m].address != address
      {
        AddressesAreDistinct(db, m, n);
      }
      WithoutAbsent(db[..n], address);
      assert db[..i] + db[i + 1..] == db[..n];
    } else {
      AddressesAreDistinct(db, i, n);
      WithoutStands(db[..n], address, i);
      assert db[..i] + db[i + 1..] == (db[..n][..i] + db[..n][i + 1..]) + [db[n]];
    }
  }

  /** Removing takes out the record with the address and leaves the others in their order. */
  lemma RemoveStands(db: seq<Config>, address: string, i: nat)
    requires WellFormed(db) && IsAddress(address)
    ensures Remove(db, address).Ok?
    ensures var small := Normalize(address).value;
      && IsSmallOf(small, address)
      && (HasAddress(db, small, i) ==> Remove(db, address).value == db[..i] + db[i + 1..])
      && (Lacks(db, small) ==> Remove(db, address).value == db)
  {
    NormalizeIsExact(address);
    var small := Normalize(address).value;
    if HasAddress(db, small, i) { WithoutStands(db, small, i); }
    if Lacks(db, small) { WithoutAbsent(db, small); }
  }
}
