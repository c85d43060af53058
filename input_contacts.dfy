/** The CSV contact importer: a quote-aware CSV parser, the mapping of rows
    to header-keyed records, telephone clean-up, the client records built
    from them and the tally of the create calls. */
module InputContacts {
  import opened Wrappers
  import Seqs
  import opened Text

  // ---- parseCSV ----

  /** The parser's variables between two characters. */
  datatype ScanState = ScanState(rows: seq<seq<string>>, curRow: seq<string>, cur: string, inQuotes: bool)

  const Start: ScanState := ScanState([], [], "", false)

  /** The parser's loop over the characters still to read. Inside quotes a
      doubled quote stands for one quote and a single quote closes; outside,
      a quote opens, ',' ends a field, '\n' ends a row and '\r' is dropped. */
  function Run(s: string, st: ScanState): ScanState
    decreases |s|
  {
    if s == [] then st
    else
      var ch := s[0];
      if st.inQuotes then
        if ch == '"' then
          if |s| > 1 && s[1] == '"' then Run(s[2..], st.(cur := st.cur + ['"']))
          else Run(s[1..], st.(inQuotes := false))
        else Run(s[1..], st.(cur := st.cur + [ch]))
      else if ch == '"' then Run(s[1..], st.(inQuotes := true))
      else if ch == ',' then Run(s[1..], st.(curRow := st.curRow + [st.cur], cur := ""))
      else if ch == '\r' then Run(s[1..], st)
      else if ch == '\n' then Run(s[1..], st.(rows := st.rows + [st.curRow + [st.cur]], curRow := [], cur := ""))
      else Run(s[1..], st.(cur := st.cur + [ch]))
  }

  /** The pending row is emitted only when it holds something. */
  function Finish(st: ScanState): seq<seq<string>>
  {
    if st.cur != "" || |st.curRow| > 0 then st.rows + [st.curRow + [st.cur]] else st.rows
  }

  function Parse(text: string): seq<seq<string>>
  {
    Finish(Run(text, Start))
  }

  /** `parseCSV`. */
  method ParseCsv(text: string) returns (rows: seq<seq<string>>)
    ensures rows == Parse(text)
  {
    rows := [];
    var curRow: seq<string> := [];
    var cur := "";
    var inQuotes := false;
    var i := 0;
    while i < |text|
      invariant 0 <= i <= |text|
      invariant Run(text[i..], ScanState(rows, curRow, cur, inQuotes)) == Run(text, Start)
      decreases |text| - i
    {
      var ch := text[i];
      assert text[i..][0] == ch;
      if inQuotes {
        if ch == '"' {
          if i + 1 < |text| && text[i + 1] == '"' {
            assert text[i..][2..] == text[i + 2..];
            cur := cur + ['"'];
            i := i + 1;
          } else {
            inQuotes := false;
          }
        } else {
          cur := cur + [ch];
        }
      } else {
        if ch == '"' {
          inQuotes := true;
        } else if ch == ',' {
          curRow := curRow + [cur];
          cur := "";
        } else if ch == '\r' {
        } else if ch == '\n' {
          curRow := curRow + [cur];
          rows := rows + [curRow];
          curRow := [];
          cur := "";
        } else {
          cur := cur + [ch];
        }
      }
      assert text[i..][1..] == text[i + 1..];
      i := i + 1;
    }
    if cur != "" || |curRow| > 0 {
      curRow := curRow + [cur];
      rows := rows + [curRow];
    }
  }

  /** An empty file has no rows. */
  lemma ParseEmpty()
    ensures Parse("") == []
  {
  }

  /** A line break that ends the text outside quotes adds no empty row. */
  lemma {:induction false} TrailingNewline(s: string, st: ScanState)
    requires !Run(s, st).inQuotes
    ensures Run(s + "\n", st) == Run(s, st).(rows := Run(s, st).rows + [Run(s, st).curRow + [Run(s, st).cur]],
                                             curRow := [], cur := "")
    ensures Finish(Run(s + "\n", st)) == Run(s, st).rows + [Run(s, st).curRow + [Run(s, st).cur]]
    decreases |s|
  {
    if s != [] {
      var ch := s[0];
      assert (s + "\n")[0] == ch && (s + "\n")[1..] == s[1..] + "\n";
      if st.inQuotes && ch == '"' && |s| > 1 && s[1] == '"' {
        assert (s + "\n")[2..] == s[2..] + "\n";
        TrailingNewline(s[2..], st.(cur := st.cur + ['"']));
      } else if st.inQuotes && ch == '"' {
        assert (s + "\n")[1] == if |s| > 1 then s[1] else '\n';
        TrailingNewline(s[1..], st.(inQuotes := false));
      } else if st.inQuotes {
        TrailingNewline(s[1..], st.(cur := st.cur + [ch]));
      } else if ch == '"' {
        TrailingNewline(s[1..], st.(inQuotes := true));
      } else if ch == ',' {
        TrailingNewline(s[1..], st.(curRow := st.curRow + [st.cur], cur := ""));
      } else if ch == '\r' {
        TrailingNewline(s[1..], st);
      } else if ch == '\n' {
        TrailingNewline(s[1..], st.(rows := st.rows + [st.curRow + [st.cur]], curRow := [], cur := ""));
      } else {
        TrailingNewline(s[1..], st.(cur := st.cur + [ch]));
      }
    }
  }

  predicate NotCarriageReturn(c: char) { c != '\r' }

  /** Outside quotes a carriage return changes nothing: text without quotes
      parses as it would with every '\r' removed. */
  lemma {:induction false} CarriageReturnsIgnored(s: string, st: ScanState)
    requires !st.inQuotes
    requires forall i :: 0 <= i < |s| ==> s[i] != '"'
    ensures Run(s, st) == Run(Seqs.Filter(s, NotCarriageReturn), st)
    decreases |s|
  {
    if s != [] {
      var rest := Seqs.Filter(s[1..], NotCarriageReturn);
      var f := Seqs.Filter(s, NotCarriageReturn);
      if s[0] == '\r' {
        assert f == rest;
        CarriageReturnsIgnored(s[1..], st);
      } else {
        assert f == [s[0]] + rest;
        assert f[0] == s[0] && f[1..] == rest;
        if s[0] == ',' {
          CarriageReturnsIgnored(s[1..], st.(curRow := st.curRow + [st.cur], cur := ""));
        } else if s[0] == '\n' {
          CarriageReturnsIgnored(s[1..], st.(rows := st.rows + [st.curRow + [st.cur]], curRow := [], cur := ""));
        } else {
          CarriageReturnsIgnored(s[1..], st.(cur := st.cur + [s[0]]));
        }
      }
    }
  }

  // The writer the parser inverts: every field quoted, quotes doubled,
  // fields joined by ',' and every row ended by '\n'.

  function Escape(f: string): string
  {
    if f == [] then [] else (if f[0] == '"' then "\"\"" else [f[0]]) + Escape(f[1..])
  }

  function Quote(f: string): string { "\"" + Escape(f) + "\"" }

  function EncodeFields(fields: seq<string>): string
    requires fields != []
  {
    if |fields| == 1 then Quote(fields[0]) else Quote(fields[0]) + "," + EncodeFields(fields[1..])
  }

  function Encode(rows: seq<seq<string>>): string
    requires forall i :: 0 <= i < |rows| ==> rows[i] != []
  {
    if rows == [] then "" else EncodeFields(rows[0]) + "\n" + Encode(rows[1..])
  }

  /** Inside quotes the escaped field is read back literally, up to and
      including its closing quote. */
  lemma {:induction false} EscapedFieldRead(f: string, r: string, st: ScanState)
    requires st.inQuotes
    requires r == [] || r[0] != '"'
    ensures Run(Escape(f) + "\"" + r, st) == Run(r, st.(cur := st.cur + f, inQuotes := false))
    decreases |f|
  {
    var s := Escape(f) + "\"" + r;
    if f == [] {
      assert s == "\"" + r;
      assert s[1..] == r;
      assert st.cur + f == st.cur;
    } else if f[0] == '"' {
      assert s == "\"\"" + (Escape(f[1..]) + "\"" + r);
      assert s[2..] == Escape(f[1..]) + "\"" + r;
      EscapedFieldRead(f[1..], r, st.(cur := st.cur + ['"']));
      assert st.cur + ['"'] + f[1..] == st.cur + f;
    } else {
      assert s == [f[0]] + (Escape(f[1..]) + "\"" + r);
      assert s[1..] == Escape(f[1..]) + "\"" + r;
      EscapedFieldRead(f[1..], r, st.(cur := st.cur + [f[0]]));
      assert st.cur + [f[0]] + f[1..] == st.cur + f;
    }
  }

  /** Outside quotes a quote opens a quoted field. */
  lemma OpenQuote(s: string, st: ScanState)
    requires !st.inQuotes
    ensures Run("\"" + s, st) == Run(s, st.(inQuotes := true))
  {
    assert ("\"" + s)[1..] == s;
  }

  /** A quoted field is read back as itself. */
  lemma QuotedFieldRead(f: string, r: string, st: ScanState)
    requires !st.inQuotes
    requires r == [] || r[0] != '"'
    ensures Run(Quote(f) + r, st) == Run(r, st.(cur := st.cur + f))
  {
    var tail := Escape(f) + "\"" + r;
    assert Quote(f) + r == "\"" + tail;
    OpenQuote(tail, st);
    EscapedFieldRead(f, r, st.(inQuotes := true));
  }

  /** An encoded row is read back as one row. */
  lemma {:induction false} RowRead(fields: seq<string>, r: string, st: ScanState)
    requires fields != []
    requires !st.inQuotes && st.cur == ""
    ensures Run(EncodeFields(fields) + "\n" + r, st)
         == Run(r, st.(rows := st.rows + [st.curRow + fields], curRow := [], cur := ""))
    decreases |fields|
  {
    var f0 := fields[0];
    if |fields| == 1 {
      assert EncodeFields(fields) + "\n" + r == Quote(f0) + ("\n" + r);
      QuotedFieldRead(f0, "\n" + r, st);
      assert ("\n" + r)[1..] == r;
      assert st.cur + f0 == f0;
      assert st.curRow + [f0] == st.curRow + fields;
    } else {
      assert EncodeFields(fields) + "\n" + r == Quote(f0) + ("," + (EncodeFields(fields[1..]) + "\n" + r));
      QuotedFieldRead(f0, "," + (EncodeFields(fields[1..]) + "\n" + r), st);
      assert ("," + (EncodeFields(fields[1..]) + "\n" + r))[1..] == EncodeFields(fields[1..]) + "\n" + r;
      assert st.cur + f0 == f0;
      RowRead(fields[1..], r, st.(curRow := st.curRow + [f0], cur := ""));
      assert st.curRow + [f0] + fields[1..] == st.curRow + fields;
    }
  }

  lemma {:induction false} RowsRead(rows: seq<seq<string>>, st: ScanState)
    requires forall i :: 0 <= i < |rows| ==> rows[i] != []
    requires !st.inQuotes && st.cur == "" && st.curRow == []
    ensures Run(Encode(rows), st) == st.(rows := st.rows + rows)
    decreases |rows|
  {
    if rows == [] {
      assert st.rows + rows == st.rows;
    } else {
      RowRead(rows[0], Encode(rows[1..]), st);
      assert st.curRow + rows[0] == rows[0];
      RowsRead(rows[1..], st.(rows := st.rows + [rows[0]]));
      assert st.rows + [rows[0]] + rows[1..] == st.rows + rows;
    }
  }

  /** Every field may hold commas, line breaks and quotes: quoting each field
      and doubling its quotes is read back exactly, row for row. */
  lemma ParseEncodeRoundTrip(rows: seq<seq<string>>)
    requires forall i :: 0 <= i < |rows| ==> rows[i] != []
    ensures Parse(Encode(rows)) == rows
  {
    RowsRead(rows, Start);
  }

  // ---- rowsToObjects ----

  /** The key of column `i`: its trimmed header, or `col{i}` when that is
      empty. */
  function Key(headers: seq<string>, i: nat): string
    requires i < |headers|
  {
    if headers[i] != "" then headers[i] else "col" + Decimal(i)
  }

  /** `(row[i] || "").trim()`. */
  function Cell(row: seq<string>, i: nat): string
  {
    if i < |row| then Trim(row[i]) else ""
  }

  /** A record written key by key, left to right: a later key overwrites an
      earlier equal one. */
  function Assoc<K, V>(keys: seq<K>, vals: seq<V>): map<K, V>
    requires |keys| == |vals|
    decreases |keys|
  {
    if keys == [] then map[]
    else Assoc(keys[..|keys| - 1], vals[..|vals| - 1])[keys[|keys| - 1] := vals[|vals| - 1]]
  }

  /** The value paired with the last occurrence of `k`. */
  function LastValue<K(==), V>(keys: seq<K>, vals: seq<V>, k: K): Option<V>
    requires |keys| == |vals|
    decreases |keys|
  {
    if keys == [] then None
    else if keys[|keys| - 1] == k then Some(vals[|vals| - 1])
    else LastValue(keys[..|keys| - 1], vals[..|vals| - 1], k)
  }

  /** A key is present exactly when some position carries it, and it holds
      the value of the last such position. */
  lemma {:induction false} AssocContents<K, V>(keys: seq<K>, vals: seq<V>)
    requires |keys| == |vals|
    ensures forall k :: k in Assoc(keys, vals) <==> LastValue(keys, vals, k).Some?
    ensures forall k :: k in Assoc(keys, vals) ==> Assoc(keys, vals)[k] == LastValue(keys, vals, k).value
    decreases |keys|
  {
    if keys != [] {
      AssocContents(keys[..|keys| - 1], vals[..|vals| - 1]);
    }
  }

  /** Every key of the sequence is present. */
  lemma {:induction false} AssocHasKeys<K, V>(keys: seq<K>, vals: seq<V>, i: nat)
    requires |keys| == |vals| && i < |keys|
    ensures keys[i] in Assoc(keys, vals)
    decreases |keys|
  {
    if i < |keys| - 1 {
      AssocHasKeys(keys[..|keys| - 1], vals[..|vals| - 1], i);
    }
  }

  function Keys(headers: seq<string>): (r: seq<string>)
    ensures |r| == |headers|
  {
    seq(|headers|, i requires 0 <= i < |headers| => Key(headers, i))
  }

  function Cells(row: seq<string>, n: nat): (r: seq<string>)
    ensures |r| == n
  {
    seq(n, i requires 0 <= i < n => Cell(row, i))
  }

  /** The record of one row: column keys paired with the row's cells. */
  function RowObject(headers: seq<string>, row: seq<string>): map<string, string>
  {
    Assoc(Keys(headers), Cells(row, |headers|))
  }

  /** A key is found only among the keys. */
  lemma {:induction false} LastValueIn<K, V>(keys: seq<K>, vals: seq<V>, k: K)
    requires |keys| == |vals| && LastValue(keys, vals, k).Some?
    ensures k in keys
    decreases |keys|
  {
    if keys[|keys| - 1] != k {
      LastValueIn(keys[..|keys| - 1], vals[..|vals| - 1], k);
    }
  }

  /** A key that no later position repeats holds the value of its own
      position. */
  lemma {:induction false} LastValueAt<K, V>(keys: seq<K>, vals: seq<V>, i: nat)
    requires |keys| == |vals| && i < |keys|
    requires forall j :: i < j < |keys| ==> keys[j] != keys[i]
    ensures LastValue(keys, vals, keys[i]) == Some(vals[i])
    decreases |keys|
  {
    if i < |keys| - 1 {
      LastValueAt(keys[..|keys| - 1], vals[..|vals| - 1], i);
    }
  }

  /** The record has a key for every column and no other; a column whose key
      no later column repeats holds its own trimmed cell, "" past the end of
      a short row. */
  lemma RowObjectEffect(headers: seq<string>, row: seq<string>)
    ensures var o := RowObject(headers, row);
      (forall i :: 0 <= i < |headers| ==> Key(headers, i) in o)
      && (forall k :: k in o ==> k in Keys(headers))
      && (forall i :: 0 <= i < |headers| && (forall j :: i < j < |headers| ==> Key(headers, j) != Key(headers, i))
            ==> o[Key(headers, i)] == Cell(row, i))
  {
    var keys := Keys(headers);
    var cells := Cells(row, |headers|);
    var o := RowObject(headers, row);
    AssocContents(keys, cells);
    forall i | 0 <= i < |headers| ensures Key(headers, i) in o {
      AssocHasKeys(keys, cells, i);
    }
    forall k | k in o ensures k in keys {
      LastValueIn(keys, cells, k);
    }
    forall i | 0 <= i < |headers| && (forall j :: i < j < |headers| ==> Key(headers, j) != Key(headers, i))
      ensures o[Key(headers, i)] == Cell(row, i)
    {
      AssocHasKeys(keys, cells, i);
      LastValueAt(keys, cells, i);
    }
  }

  /** The `for` loop that fills `obj`. */
  method FillRow(headers: seq<string>, row: seq<string>) returns (obj: map<string, string>)
    ensures obj == RowObject(headers, row)
  {
    ghost var keys := Keys(headers);
    ghost var cells := Cells(row, |headers|);
    obj := map[];
    var i := 0;
    while i < |headers|
      invariant 0 <= i <= |headers|
      invariant obj == Assoc(keys[..i], cells[..i])
    {
      assert keys[..i + 1][..i] == keys[..i] && cells[..i + 1][..i] == cells[..i];
      obj := obj[Key(headers, i) := Cell(row, i)];
      i := i + 1;
    }
    assert keys[..i] == keys && cells[..i] == cells;
  }

  function TrimAll(row: seq<string>): (r: seq<string>)
    ensures |r| == |row| && forall i :: 0 <= i < |row| ==> r[i] == Trim(row[i])
  {
    seq(|row|, i requires 0 <= i < |row| => Trim(row[i]))
  }

  /** `rowsToObjects`: no rows give no records; otherwise the first row is
      the header and every later row gives one record. */
  function RowsToObjects(rows: seq<seq<string>>): (r: seq<map<string, string>>)
    ensures rows == [] ==> r == []
    ensures rows != [] ==> |r| == |rows| - 1
  {
    if rows == [] then []
    else
      var headers := TrimAll(rows[0]);
      seq(|rows| - 1, j requires 0 <= j < |rows| - 1 => RowObject(headers, rows[j + 1]))
  }

  // ---- telephones ----

  predicate IsPhoneChar(c: char) { c == '+' || IsDigit(c) }

  /** `raw.trim().replace(/[^+\d]/g, "")`. */
  function PhoneChars(s: string): string
  {
    Seqs.Filter(Trim(s), IsPhoneChar)
  }

  /** `normalizePhone`: an empty or absent value gives "". */
  function NormalizePhone(raw: string): (r: string)
    ensures r == "" || r[0] == '+'
    ensures forall i :: 0 <= i < |r| ==> IsPhoneChar(r[i])
    ensures r == "" <==> PhoneChars(raw) == ""
  {
    if raw == "" then ""
    else
      var cleaned := PhoneChars(raw);
      if cleaned == "" then ""
      else if cleaned[0] == '+' then cleaned
      else "+" + cleaned
  }

  /** With only white space before `a` and from `b` on, the telephone
      characters of `s` are those of `s[a..b]`. */
  lemma PhoneCharsBetweenSpaces(s: string, a: nat, b: nat)
    requires a <= b <= |s|
    requires forall i :: 0 <= i < a ==> IsSpace(s[i])
    requires forall i :: b <= i < |s| ==> IsSpace(s[i])
    ensures Seqs.Filter(s, IsPhoneChar) == Seqs.Filter(s[a..b], IsPhoneChar)
  {
    forall i | 0 <= i < a || b <= i < |s| ensures !IsPhoneChar(s[i]) {
      assert IsSpace(s[i]);
    }
    Seqs.FilterMiddle(s, a, b, IsPhoneChar);
  }

  /** Trimming first makes no difference: only '+' and digits are kept. */
  lemma PhoneCharsIgnoresTrim(s: string)
    ensures PhoneChars(s) == Seqs.Filter(s, IsPhoneChar)
  {
    var a, b := TrimRemovesSpaces(s);
    PhoneCharsBetweenSpaces(s, a, b);
  }

  /** A normalized telephone normalizes to itself. */
  lemma NormalizePhoneIdempotent(raw: string)
    ensures NormalizePhone(NormalizePhone(raw)) == NormalizePhone(raw)
  {
    var n := NormalizePhone(raw);
    if n != "" {
      TrimUntrimmed(n);
      Seqs.FilterAll(n, IsPhoneChar);
    }
  }

  /** `[A-Za-zÀ-ú]`. */
  predicate IsLetter(c: char)
  {
    ('A' <= c <= 'Z') || ('a' <= c <= 'z') || ('\U{00C0}' <= c <= '\U{00FA}')
  }

  /** `isPhoneLike`: at least seven digits and more digits than letters. */
  predicate IsPhoneLike(s: string)
  {
    var digits := Seqs.Count(s, IsDigit);
    var letters := Seqs.Count(s, IsLetter);
    digits >= 7 && digits > letters
  }

  /** Short strings and strings without digits are never taken for a
      telephone. */
  lemma NotPhoneLike(s: string)
    ensures |s| < 7 ==> !IsPhoneLike(s)
    ensures (forall i :: 0 <= i < |s| ==> !IsDigit(s[i])) ==> !IsPhoneLike(s)
  {
    if forall i :: 0 <= i < |s| ==> !IsDigit(s[i]) {
      Seqs.FilterNone(s, IsDigit);
    }
  }

  /** A normalized telephone is phone-like exactly when it has seven digits:
      it has no letters. */
  lemma NormalizedPhoneLike(raw: string)
    ensures var n := NormalizePhone(raw);
      IsPhoneLike(n) <==> Seqs.Count(n, IsDigit) >= 7
  {
    var n := NormalizePhone(raw);
    assert forall c :: c in n ==> !IsLetter(c);
    Seqs.FilterNone(n, IsLetter);
  }

  // ---- building the clients ----

  /** A parsed record: absent keys read as "". */
  function Field(o: map<string, string>, k: string): string { if k in o then o[k] else "" }

  /** `a || b`. */
  function Or(a: string, b: string): string { if a != "" then a else b }

  predicate NonEmpty(s: string) { s != "" }

  /** `parts.join(" ")`. */
  function Join(parts: seq<string>): string
  {
    if parts == [] then "" else if |parts| == 1 then parts[0] else parts[0] + " " + Join(parts[1..])
  }

  /** The client a record becomes. The birthday is not part of this model. */
  datatype NewClient = NewClient(name: string, telephone: string, address: string, cpf: Option<string>)

  const NoName: string := "(sem nome)"

  /** `[first, middle, last].filter(Boolean).join(" ").trim() || fileAs || name || ""`. */
  function NameCandidate(o: map<string, string>): string
  {
    var fullName := Trim(Join(Seqs.Filter([Field(o, "First Name"), Field(o, "Middle Name"), Field(o, "Last Name")], NonEmpty)));
    Or(fullName, Or(Field(o, "File As"), Field(o, "Name")))
  }

  /** A phone-like candidate is dropped, and an empty one becomes the
      placeholder. */
  function NameFrom(candidate: string): (name: string)
    ensures name != ""
  {
    var kept := if IsPhoneLike(candidate) then "" else candidate;
    Or(kept, NoName)
  }

  lemma PlaceholderNotPhoneLike()
    ensures !IsPhoneLike(NoName)
  {
    var s := NoName;
    assert forall i :: 0 <= i < |s| ==> !IsDigit(s[i]);
    NotPhoneLike(s);
  }

  /** The name is never empty and never a telephone: a phone-like name
      gives way to the placeholder, which is not phone-like, and any other
      non-empty candidate is kept as it is. */
  lemma NameFromIsAName(candidate: string)
    ensures NameFrom(candidate) != "" && !IsPhoneLike(NameFrom(candidate))
    ensures candidate != "" && !IsPhoneLike(candidate) ==> NameFrom(candidate) == candidate
  {
    PlaceholderNotPhoneLike();
  }

  /** A telephone as `normalizePhone` leaves it. */
  predicate NormalizedShape(t: string)
  {
    t != "" ==> t[0] == '+' && forall i :: 0 <= i < |t| ==> IsPhoneChar(t[i])
  }

  /** The normalized telephone under one column. */
  function PhoneOf(o: map<string, string>, column: string): (r: string)
    ensures NormalizedShape(r)
  {
    NormalizePhone(Field(o, column))
  }

  /** `phones[0] || ""` after `.filter(Boolean)`: the first non-empty of the
      three normalized columns, or empty when all three are. */
  function PrimaryPhone(o: map<string, string>): (r: string)
    ensures NormalizedShape(r)
    ensures r == "" <==> PhoneOf(o, "Phone 1 - Value") == "" && PhoneOf(o, "Phone 2 - Value") == ""
                         && PhoneOf(o, "Phone") == ""
  {
    var p1 := PhoneOf(o, "Phone 1 - Value");
    if p1 != "" then p1
    else
      var p2 := PhoneOf(o, "Phone 2 - Value");
      if p2 != "" then p2 else PhoneOf(o, "Phone")
  }

  function BuildClient(o: map<string, string>): (c: NewClient)
    ensures c.name != "" && NormalizedShape(c.telephone)
  {
    var cpfRaw := Trim(Or(Field(o, "CPF"), Field(o, "cpf")));
    NewClient(NameFrom(NameCandidate(o)), PrimaryPhone(o),
              Or(Field(o, "Address"), Field(o, "address")),
              if cpfRaw != "" then Some(cpfRaw) else None)
  }

  predicate Submittable(c: NewClient) { c.name != "" && c.telephone != "" }

  const MaxClients: nat := 15

  const NoValidContact: string := "Nenhum contato válido (falta name ou telephone)."

  /** The clients sent to the back end, or the message shown when none is
      usable. */
  function ClientsToCreate(text: string): Result<seq<NewClient>, string>
  {
    var objects := RowsToObjects(Parse(text));
    var clients := seq(|objects|, i requires 0 <= i < |objects| => BuildClient(objects[i]));
    var valid := Seqs.Filter(clients, Submittable);
    if valid == [] then Err(NoValidContact) else Ok(Seqs.Take(valid, MaxClients))
  }

  /** At most fifteen clients go out, each with a name and a telephone that
      starts with '+' and holds only '+' and digits. */
  lemma ClientsToCreateAreValid(text: string)
    requires ClientsToCreate(text).Ok?
    ensures var cs := ClientsToCreate(text).value;
      1 <= |cs| <= MaxClients
      && forall c :: c in cs ==>
           c.name != "" && c.telephone != "" && c.telephone[0] == '+'
           && forall i :: 0 <= i < |c.telephone| ==> IsPhoneChar(c.telephone[i])
  {
    var objects := RowsToObjects(Parse(text));
    var clients := seq(|objects|, i requires 0 <= i < |objects| => BuildClient(objects[i]));
    var valid := Seqs.Filter(clients, Submittable);
    var cs := ClientsToCreate(text).value;
    forall c | c in cs
      ensures c.telephone != "" && NormalizedShape(c.telephone)
    {
      assert c in valid;
      var k :| 0 <= k < |clients| && clients[k] == c;
    }
  }

  // ---- the tally of the create calls ----

  /** A settled create call: fulfilled with or without an error message, or
      rejected with a reason. */
  datatype Outcome = Fulfilled(error: Option<string>) | Rejected(reason: string)

  /** A fulfilled call counts as a success unless its error message is a
      non-empty string. */
  predicate Succeeded(r: Outcome) { r.Fulfilled? && (r.error.None? || r.error.value == "") }

  function Message(r: Outcome): string
  {
    match r
    case Fulfilled(e) => e.GetOr("")
    case Rejected(reason) => reason
  }

  /** The line reported for a failed call at position `idx`. */
  function ErrorLine(idx: nat, r: Outcome): string
  {
    "Linha " + Decimal(idx + 1) + ": " + Message(r)
  }

  /** How many of the first `n` calls succeeded. */
  function Successes(results: seq<Outcome>, n: nat): nat
    requires n <= |results|
  {
    if n == 0 then 0 else Successes(results, n - 1) + (if Succeeded(results[n - 1]) then 1 else 0)
  }

  /** The error lines of the first `n` calls, in call order. */
  function ErrorLines(results: seq<Outcome>, n: nat): seq<string>
    requires n <= |results|
  {
    if n == 0 then []
    else ErrorLines(results, n - 1) + (if Succeeded(results[n - 1]) then [] else [ErrorLine(n - 1, results[n - 1])])
  }

  /** Every call is counted once: as a success or as an error line. */
  lemma {:induction false} TallyAccounts(results: seq<Outcome>, n: nat)
    requires n <= |results|
    ensures Successes(results, n) + |ErrorLines(results, n)| == n
  {
    if n > 0 {
      TallyAccounts(results, n - 1);
    }
  }

  /** The `forEach` that counts successes and collects error lines. */
  method TallyResults(results: seq<Outcome>) returns (successCount: nat, errorList: seq<string>)
    ensures successCount == Successes(results, |results|)
    ensures errorList == ErrorLines(results, |results|)
    ensures successCount + |errorList| == |results|
  {
    successCount := 0;
    errorList := [];
    var idx := 0;
    while idx < |results|
      invariant 0 <= idx <= |results|
      invariant successCount == Successes(results, idx)
      invariant errorList == ErrorLines(results, idx)
    {
      if Succeeded(results[idx]) {
        successCount := successCount + 1;
      } else {
        errorList := errorList + [ErrorLine(idx, results[idx])];
      }
      idx := idx + 1;
    }
    TallyAccounts(results, |results|);
  }
}
