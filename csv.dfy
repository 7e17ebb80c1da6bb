/**
 * Reading the food catalogue from CSV text.
 *
 * cpp/include/CSVReader.h splits each line with a quote-toggling comma splitter
 * (a double quote flips "inside quotes" and is dropped; a comma outside quotes
 * ends a field; there is no escaped quote), converts numbers with `std::stod`
 * falling back to 0, and keeps the data lines with at least nine fields.  The two
 * browser front ends split on plain commas after trimming each line, and fall
 * back to 0 when a number does not parse.
 *
 * Number parsing (`std::stod`, `parseFloat`, unary `+`) is a parameter of type
 * `string -> Option<real>`: `None` is a failed parse (an exception, or NaN).
 */
module Csv {
  import opened Wrappers
  import opened Text
  import opened Nutrition

  // ---------------------------------------------------------------------------
  // parseLine

  /** The state of `parseLine` after some characters: the fields completed so far,
      the field being built, and whether a quote is open. */
  datatype Scan = Scan(done: seq<string>, current: string, inQuotes: bool)

  /** The state of `parseLine` after reading all of `line`. */
  function ScanLine(line: string): Scan
  {
    if line == [] then Scan([], [], false)
    else
      var st := ScanLine(line[..|line| - 1]);
      var c := line[|line| - 1];
      if c == '"' then st.(inQuotes := !st.inQuotes)
      else if c == ',' && !st.inQuotes then Scan(st.done + [st.current], [], st.inQuotes)
      else st.(current := st.current + [c])
  }

  /** The fields `parseLine` returns: the completed ones and the last one. */
  function Fields(line: string): seq<string>
  {
    var st := ScanLine(line);
    st.done + [st.current]
  }

  /** `parseLine`: one pass over the characters, toggling on quotes and cutting on
      commas outside quotes; the field in progress is always pushed at the end. */
  method ParseLine(line: string) returns (result: seq<string>)
    ensures result == Fields(line)
    ensures |result| >= 1
  {
    result := [];
    var current: string := [];
    var inQuotes := false;
    var i := 0;
    while i < |line|
      invariant 0 <= i <= |line|
      invariant ScanLine(line[..i]) == Scan(result, current, inQuotes)
    {
      var c := line[i];
      assert line[..i + 1][..i] == line[..i];
      if c == '"' {
        inQuotes := !inQuotes;
      } else if c == ',' && !inQuotes {
        result := result + [current];
        current := [];
      } else {
        current := current + [c];
      }
      i := i + 1;
    }
    assert line[..i] == line;
    result := result + [current];
  }

  /** Whether the quotes before a position are unbalanced, i.e. the position is inside quotes. */
  predicate Quoted(prefix: string)
  {
    Occurrences(prefix, '"') % 2 == 1
  }

  /** Number of commas that stand outside quotes. */
  function UnquotedCommas(line: string): nat
  {
    if line == [] then 0
    else UnquotedCommas(line[..|line| - 1])
         + (if line[|line| - 1] == ',' && !Quoted(line[..|line| - 1]) then 1 else 0)
  }

  /** `line` with every double quote removed. */
  function Unquote(line: string): string
  {
    if line == [] then []
    else Unquote(line[..|line| - 1]) + (if line[|line| - 1] == '"' then [] else [line[|line| - 1]])
  }

  lemma JoinExtendLast(p: seq<string>, x: string, c: char, sep: char)
    ensures Join(p + [x + [c]], sep) == Join(p + [x], sep) + [c]
  {
    if p != [] {
      assert (p + [x + [c]])[..|p|] == p;
      assert (p + [x])[..|p|] == p;
    }
  }

  lemma JoinExtend(p: seq<string>, x: string, sep: char)
    ensures Join(p + [x] + [[]], sep) == Join(p + [x], sep) + [sep]
  {
    assert (p + [x] + [[]])[..|p| + 1] == p + [x];
  }

  /** What `parseLine` does, character class by character class: the open-quote flag is
      the parity of the quotes read; there is one field per comma outside quotes, plus
      one; no field keeps a quote; and joining the fields with commas gives back the
      line without its quotes (so a comma inside quotes stays in its field). */
  lemma ParseLineFacts(line: string)
    ensures ScanLine(line).inQuotes == Quoted(line)
    ensures |Fields(line)| == 1 + UnquotedCommas(line)
    ensures forall k :: 0 <= k < |Fields(line)| ==> '"' !in Fields(line)[k]
    ensures Join(Fields(line), ',') == Unquote(line)
  {
    ScanQuoted(line);
    FieldCount(line);
    FieldsUnquoted(line);
    FieldsJoin(line);
  }

  /** The open-quote flag is the parity of the quotes read. */
  lemma {:induction false} ScanQuoted(line: string)
    ensures ScanLine(line).inQuotes == Quoted(line)
  {
    if line != [] {
      ScanQuoted(line[..|line| - 1]);
    }
  }

  /** One field per comma outside quotes, plus one. */
  lemma {:induction false} FieldCount(line: string)
    ensures |Fields(line)| == 1 + UnquotedCommas(line)
  {
    if line != [] {
      var init := line[..|line| - 1];
      FieldCount(init);
      ScanQuoted(init);
    }
  }

  /** No field keeps a quote character. */
  lemma {:induction false} FieldsUnquoted(line: string)
    ensures forall k :: 0 <= k < |Fields(line)| ==> '"' !in Fields(line)[k]
  {
    if line != [] {
      var init := line[..|line| - 1];
      var c := line[|line| - 1];
      FieldsUnquoted(init);
      var st := ScanLine(init);
      var fs := st.done + [st.current];
      assert Fields(init) == fs;
      assert forall k :: 0 <= k < |st.done| ==> '"' !in st.done[k] by {
        forall k | 0 <= k < |st.done| ensures '"' !in st.done[k] {
          assert fs[k] == st.done[k];
        }
      }
      assert '"' !in st.current by {
        assert fs[|fs| - 1] == st.current;
      }
      if c == '"' {
      } else if c == ',' && !st.inQuotes {
        var fs' := st.done + [st.current] + [[]];
        assert Fields(line) == fs';
        forall k | 0 <= k < |fs'| ensures '"' !in fs'[k] {
          if k < |st.done| {
            assert fs'[k] == st.done[k];
          } else if k == |st.done| {
            assert fs'[k] == st.current;
          }
        }
      } else {
        var fs' := st.done + [st.current + [c]];
        assert Fields(line) == fs';
        forall k | 0 <= k < |fs'| ensures '"' !in fs'[k] {
          if k < |st.done| {
            assert fs'[k] == st.done[k];
          }
        }
      }
    }
  }

  /** Joining the fields with commas gives back the line without its quotes. */
  lemma {:induction false} FieldsJoin(line: string)
    ensures Join(Fields(line), ',') == Unquote(line)
  {
    if line != [] {
      var init := line[..|line| - 1];
      var c := line[|line| - 1];
      FieldsJoin(init);
      var st := ScanLine(init);
      if c == '"' {
      } else if c == ',' && !st.inQuotes {
        assert Fields(line) == st.done + [st.current] + [[]];
        JoinExtend(st.done, st.current, ',');
      } else {
        assert Fields(line) == st.done + [st.current + [c]];
        JoinExtendLast(st.done, st.current, c, ',');
      }
    }
  }

  /** Without quotes, `parseLine` is a plain split on commas. */
  lemma {:induction false} UnquotedLineIsSplit(line: string)
    requires '"' !in line
    ensures Fields(line) == Split(line, ',')
  {
    if line != [] {
      var init := line[..|line| - 1];
      UnquotedLineIsSplit(init);
      ParseLineFacts(init);
      assert !ScanLine(init).inQuotes by {
        NoQuotesNoOccurrences(init);
      }
    }
  }

  lemma {:induction false} NoQuotesNoOccurrences(s: string)
    requires '"' !in s
    ensures Occurrences(s, '"') == 0
  {
    if s != [] {
      NoQuotesNoOccurrences(s[..|s| - 1]);
    }
  }

  /** A comma between quotes does not split: `"a,b",c` gives the fields `a,b` and `c`. */
  lemma QuotedComma()
    ensures Fields("\"a,b\",c") == ["a,b", "c"]
  {
    assert ScanLine("\"") == Scan([], [], true);
    assert ScanLine("\"a") == Scan([], "a", true);
    assert ScanLine("\"a,") == Scan([], "a,", true);
    assert "\"a,b"[..3] == "\"a,";
    assert "\"a,b\""[..4] == "\"a,b";
    assert "\"a,b\","[..5] == "\"a,b\"";
    assert "\"a,b\",c"[..6] == "\"a,b\",";
    assert ScanLine("\"a,b") == Scan([], "a,b", true);
    assert ScanLine("\"a,b\"") == Scan([], "a,b", false);
    assert ScanLine("\"a,b\",") == Scan(["a,b"], "", false);
    assert ScanLine("\"a,b\",c") == Scan(["a,b"], "c", false);
  }

  // ---------------------------------------------------------------------------
  // toDouble and loadFromCSV

  /** `toDouble`: 0 for an empty string or one `std::stod` rejects, the parsed value otherwise. */
  function ToDouble(str: string, stod: string -> Option<real>): (r: real)
    ensures str == [] || stod(str).None? ==> r == 0.0
    ensures str != [] && stod(str).Some? ==> r == stod(str).value
  {
    if str == [] then 0.0
    else match stod(str)
      case None => 0.0
      case Some(v) => v
  }

  /** The food of a row: fields 0..8 are name, kcal, protein, fat, carbs, sugar, fiber,
      saturated fat and sodium. */
  function RowFood(fields: seq<string>, stod: string -> Option<real>): (f: Food)
    requires |fields| >= 9
    ensures f.name == fields[0] && f.kcal == ToDouble(fields[1], stod) && f.sodium == ToDouble(fields[8], stod)
  {
    Food(fields[0], ToDouble(fields[1], stod), ToDouble(fields[2], stod), ToDouble(fields[3], stod),
         ToDouble(fields[4], stod), ToDouble(fields[5], stod), ToDouble(fields[6], stod),
         ToDouble(fields[7], stod), ToDouble(fields[8], stod))
  }

  /** Whether a data line yields a food: it is not empty and has at least nine fields. */
  predicate IsRow(line: string)
  {
    line != [] && |Fields(line)| >= 9
  }

  /** The foods of the data lines (the lines after the header). */
  function Rows(lines: seq<string>, stod: string -> Option<real>): seq<Food>
  {
    if lines == [] then []
    else
      var last := lines[|lines| - 1];
      Rows(lines[..|lines| - 1], stod) + (if IsRow(last) then [RowFood(Fields(last), stod)] else [])
  }

  /** The foods of a whole file: the first line is the header. */
  function Catalogue(lines: seq<string>, stod: string -> Option<real>): seq<Food>
  {
    if lines == [] then [] else Rows(lines[1..], stod)
  }

  /** The line loop of `loadFromCSV` over the lines `getline` delivers. */
  method LoadFromCsv(lines: seq<string>, stod: string -> Option<real>) returns (foods: seq<Food>)
    ensures foods == Catalogue(lines, stod)
  {
    foods := [];
    var firstLine := true;
    var i := 0;
    while i < |lines|
      invariant 0 <= i <= |lines|
      invariant firstLine <==> i == 0
      invariant foods == if i == 0 then [] else Rows(lines[1..i], stod)
    {
      var line := lines[i];
      if firstLine {
        firstLine := false;
        assert lines[1..1] == [];
      } else {
        assert lines[1..i + 1][..i - 1] == lines[1..i];
        if line != [] {
          var fields := ParseLine(line);
          if |fields| >= 9 {
            var food := Food(fields[0], ToDouble(fields[1], stod), ToDouble(fields[2], stod),
                             ToDouble(fields[3], stod), ToDouble(fields[4], stod), ToDouble(fields[5], stod),
                             ToDouble(fields[6], stod), ToDouble(fields[7], stod), ToDouble(fields[8], stod));
            foods := foods + [food];
          }
        }
      }
      i := i + 1;
    }
    if i > 0 {
      assert lines[1..i] == lines[1..];
    }
  }

  lemma {:induction false} RowsAppend(a: seq<string>, b: seq<string>, stod: string -> Option<real>)
    ensures Rows(a + b, stod) == Rows(a, stod) + Rows(b, stod)
  {
    if b != [] {
      RowsAppend(a, b[..|b| - 1], stod);
      assert (a + b)[..|a + b| - 1] == a + b[..|b| - 1];
    } else {
      assert a + b == a;
    }
  }

  /** Empty lines contribute nothing: removing one changes no result. */
  lemma EmptyLineSkipped(a: seq<string>, b: seq<string>, stod: string -> Option<real>)
    ensures Rows(a + [[]] + b, stod) == Rows(a + b, stod)
  {
    RowsAppend(a + [[]], b, stod);
    RowsAppend(a, [[]], stod);
    RowsAppend(a, b, stod);
    assert Rows([[]], stod) == Rows([], stod) + [];
  }

  /** A food is loaded exactly when some data line with at least nine fields describes it. */
  lemma RowsMembers(lines: seq<string>, stod: string -> Option<real>, f: Food)
    ensures f in Rows(lines, stod) <==>
              exists k :: 0 <= k < |lines| && IsRow(lines[k]) && f == RowFood(Fields(lines[k]), stod)
  {
    if f in Rows(lines, stod) {
      RowsSound(lines, stod, f);
    }
    if exists k :: 0 <= k < |lines| && IsRow(lines[k]) && f == RowFood(Fields(lines[k]), stod) {
      var k :| 0 <= k < |lines| && IsRow(lines[k]) && f == RowFood(Fields(lines[k]), stod);
      RowsComplete(lines, stod, k);
    }
  }

  /** Every loaded food comes from some data line. */
  lemma {:induction false} RowsSound(lines: seq<string>, stod: string -> Option<real>, f: Food)
    requires f in Rows(lines, stod)
    ensures exists k :: 0 <= k < |lines| && IsRow(lines[k]) && f == RowFood(Fields(lines[k]), stod)
  {
    var init := lines[..|lines| - 1];
    if f in Rows(init, stod) {
      RowsSound(init, stod, f);
      var k :| 0 <= k < |init| && IsRow(init[k]) && f == RowFood(Fields(init[k]), stod);
      assert lines[k] == init[k];
    } else {
      var k := |lines| - 1;
      assert IsRow(lines[k]) && f == RowFood(Fields(lines[k]), stod);
    }
  }

  /** Every line with at least nine fields is loaded. */
  lemma {:induction false} RowsComplete(lines: seq<string>, stod: string -> Option<real>, k: nat)
    requires k < |lines| && IsRow(lines[k])
    ensures RowFood(Fields(lines[k]), stod) in Rows(lines, stod)
  {
    var init := lines[..|lines| - 1];
    if k < |init| {
      assert init[k] == lines[k];
      RowsComplete(init, stod, k);
    }
  }

  // ---------------------------------------------------------------------------
  // The browser parsers

  /** `parseFloat(x) || 0` and `+x || 0`: a failed parse (NaN) and zero both give 0. */
  function ParsedOrZero(parse: string -> Option<real>, s: string): (r: real)
    ensures parse(s).None? ==> r == 0.0
    ensures parse(s).Some? ==> r == parse(s).value
  {
    parse(s).GetOr(0.0)
  }

  /** The food of a comma-split row in the browser parsers. */
  function JsRowFood(parts: seq<string>, parse: string -> Option<real>): (f: Food)
    requires |parts| >= 9
    ensures f.name == parts[0] && f.kcal == ParsedOrZero(parse, parts[1]) && f.sodium == ParsedOrZero(parse, parts[8])
  {
    Food(parts[0], ParsedOrZero(parse, parts[1]), ParsedOrZero(parse, parts[2]), ParsedOrZero(parse, parts[3]),
         ParsedOrZero(parse, parts[4]), ParsedOrZero(parse, parts[5]), ParsedOrZero(parse, parts[6]),
         ParsedOrZero(parse, parts[7]), ParsedOrZero(parse, parts[8]))
  }

  /** Whether a line yields a food in the browser parsers: after trimming it is not empty
      and it has at least nine comma-separated parts. */
  predicate IsJsRow(line: string)
  {
    Trim(line) != [] && |Split(Trim(line), ',')| >= 9
  }

  /** The foods of lines that are each trimmed, skipped when blank, split on commas. */
  function JsRows(lines: seq<string>, parse: string -> Option<real>): seq<Food>
  {
    if lines == [] then []
    else
      var last := lines[|lines| - 1];
      JsRows(lines[..|lines| - 1], parse)
      + (if IsJsRow(last) then [JsRowFood(Split(Trim(last), ','), parse)] else [])
  }

  /** app.js `parseCSV`: skip physical line 0, then trim, skip blank lines, split. */
  method ParseCsvApp(text: string, parseFloat: string -> Option<real>) returns (foods: seq<Food>)
    ensures foods == JsRows(Split(text, '\n')[1..], parseFloat)
  {
    var lines := Split(text, '\n');
    foods := [];
    var i := 1;
    while i < |lines|
      invariant 1 <= i <= |lines|
      invariant foods == JsRows(lines[1..i], parseFloat)
    {
      assert lines[1..i + 1][..i - 1] == lines[1..i];
      var line := Trim(lines[i]);
      if line != [] {
        var parts := Split(line, ',');
        if |parts| >= 9 {
          foods := foods + [JsRowFood(parts, parseFloat)];
        }
      }
      i := i + 1;
    }
    assert lines[1..i] == lines[1..];
  }

  /** The trimmed non-blank lines, in order (`split('\n').map(trim).filter(Boolean)`). */
  function NonBlankLines(lines: seq<string>): (r: seq<string>)
    ensures forall k :: 0 <= k < |r| ==> r[k] != [] && Trim(r[k]) == r[k]
  {
    if lines == [] then []
    else
      var t := Trim(lines[|lines| - 1]);
      var p := NonBlankLines(lines[..|lines| - 1]);
      TrimFixed(t);
      var r := p + (if t != [] then [t] else []);
      assert forall k :: 0 <= k < |r| ==> r[k] != [] && Trim(r[k]) == r[k] by {
        forall k | 0 <= k < |r| ensures r[k] != [] && Trim(r[k]) == r[k] {
          if k < |p| {
            assert r[k] == p[k];
          }
        }
      }
      r
  }

  /** web/js/app.js `parseCSV`: drop blank lines first, then skip the first remaining
      line as the header, split the rest on commas. */
  method ParseCsvWeb(text: string, plus: string -> Option<real>) returns (foods: seq<Food>)
    ensures foods == (var ls := NonBlankLines(Split(text, '\n')); if ls == [] then [] else JsRows(ls[1..], plus))
  {
    var lines := TrimmedLines(Split(text, '\n'));
    foods := [];
    if lines != [] {
      foods := DataRows(lines, plus);
    }
  }

  /** `split('\n').map(trim).filter(Boolean)` as a loop. */
  method TrimmedLines(all: seq<string>) returns (lines: seq<string>)
    ensures lines == NonBlankLines(all)
  {
    lines := [];
    var j := 0;
    while j < |all|
      invariant 0 <= j <= |all|
      invariant lines == NonBlankLines(all[..j])
    {
      assert all[..j + 1][..j] == all[..j];
      var t := Trim(all[j]);
      if t != [] {
        lines := lines + [t];
      }
      j := j + 1;
    }
    assert all[..j] == all;
  }

  /** The row loop of web/js/app.js `parseCSV` over lines that are already trimmed and
      not blank: every line after the first is split on commas. */
  method DataRows(lines: seq<string>, plus: string -> Option<real>) returns (foods: seq<Food>)
    requires |lines| >= 1
    requires forall k :: 0 <= k < |lines| ==> lines[k] != [] && Trim(lines[k]) == lines[k]
    ensures foods == JsRows(lines[1..], plus)
  {
    foods := [];
    var i := 1;
    while i < |lines|
      invariant 1 <= i <= |lines|
      invariant foods == JsRows(lines[1..i], plus)
    {
      assert lines[1..i + 1][..i - 1] == lines[1..i];
      assert lines[1..i + 1][i - 1] == lines[i];
      var p := Split(lines[i], ',');
      if |p| >= 9 {
        foods := foods + [JsRowFood(p, plus)];
      }
      i := i + 1;
    }
    assert lines[1..i] == lines[1..];
  }

  lemma {:induction false} NonBlankAppend(a: seq<string>, b: seq<string>)
    ensures NonBlankLines(a + b) == NonBlankLines(a) + NonBlankLines(b)
  {
    if b == [] {
      assert a + b == a;
    } else {
      var t := Trim(b[|b| - 1]);
      var more := if t != [] then [t] else [];
      NonBlankAppend(a, b[..|b| - 1]);
      assert (a + b)[..|a + b| - 1] == a + b[..|b| - 1];
      assert NonBlankLines(a + b) == NonBlankLines(a + b[..|b| - 1]) + more;
      assert NonBlankLines(b) == NonBlankLines(b[..|b| - 1]) + more;
    }
  }

  lemma {:induction false} JsRowsAppend(a: seq<string>, b: seq<string>, parse: string -> Option<real>)
    ensures JsRows(a + b, parse) == JsRows(a, parse) + JsRows(b, parse)
  {
    if b == [] {
      assert a + b == a;
    } else {
      var x := b[|b| - 1];
      var more := if IsJsRow(x) then [JsRowFood(Split(Trim(x), ','), parse)] else [];
      JsRowsAppend(a, b[..|b| - 1], parse);
      assert (a + b)[..|a + b| - 1] == a + b[..|b| - 1];
      assert JsRows(a + b, parse) == JsRows(a + b[..|b| - 1], parse) + more;
      assert JsRows(b, parse) == JsRows(b[..|b| - 1], parse) + more;
    }
  }

  /** Trimming lines and dropping the blank ones first does not change the rows read. */
  lemma {:induction false} JsRowsNonBlank(lines: seq<string>, parse: string -> Option<real>)
    ensures JsRows(NonBlankLines(lines), parse) == JsRows(lines, parse)
  {
    if lines != [] {
      var init := lines[..|lines| - 1];
      var t := Trim(lines[|lines| - 1]);
      JsRowsNonBlank(init, parse);
      TrimFixed(t);
      assert lines == init + [lines[|lines| - 1]];
      NonBlankAppend(init, [lines[|lines| - 1]]);
      assert NonBlankLines([lines[|lines| - 1]]) == NonBlankLines([]) + (if t != [] then [t] else []);
      JsRowsAppend(NonBlankLines(init), NonBlankLines([lines[|lines| - 1]]), parse);
      if t != [] {
        assert JsRows([t], parse) == JsRows([], parse) + (if IsJsRow(t) then [JsRowFood(Split(Trim(t), ','), parse)] else []);
      }
    }
  }

  /** The non-blank lines of a text whose first line is not blank: that line trimmed, then the rest. */
  lemma NonBlankFirst(h: string, rest: seq<string>)
    requires Trim(h) != []
    ensures NonBlankLines([h] + rest) == [Trim(h)] + NonBlankLines(rest)
  {
    NonBlankAppend([h], rest);
    assert [h][..0] == [];
    assert NonBlankLines([h]) == NonBlankLines([]) + [Trim(h)];
  }

  /** A blank first line is dropped from the non-blank lines. */
  lemma NonBlankSkip(h: string, rest: seq<string>)
    requires Trim(h) == []
    ensures NonBlankLines([h] + rest) == NonBlankLines(rest)
  {
    NonBlankAppend([h], rest);
    assert [h][..0] == [];
    assert NonBlankLines([h]) == NonBlankLines([]);
  }

  /** When the first line is the (non-blank) header, the two browser parsers read the
      same foods from the same lines, given the same number reading: app.js reads `rest`,
      web/js/app.js reads the non-blank lines after the first. */
  lemma BrowserParsersAgree(header: string, rest: seq<string>, parse: string -> Option<real>)
    requires Trim(header) != []
    ensures NonBlankLines([header] + rest) != []
    ensures JsRows(rest, parse) == JsRows(NonBlankLines([header] + rest)[1..], parse)
  {
    NonBlankFirst(header, rest);
    assert NonBlankLines([header] + rest)[1..] == NonBlankLines(rest);
    JsRowsNonBlank(rest, parse);
  }

  /** With a blank first line, app.js skips only that blank line and reads the header as a
      data row, while web/js/app.js skips the header: app.js gets the header's row in front. */
  lemma LeadingBlankLine(blank: string, header: string, data: seq<string>, parse: string -> Option<real>)
    requires Trim(blank) == [] && Trim(header) != []
    ensures NonBlankLines([blank, header] + data) != []
    ensures JsRows([header] + data, parse)
            == JsRows([header], parse) + JsRows(NonBlankLines([blank, header] + data)[1..], parse)
  {
    assert [blank, header] + data == [blank] + ([header] + data);
    NonBlankSkip(blank, [header] + data);
    NonBlankFirst(header, data);
    assert NonBlankLines([blank, header] + data)[1..] == NonBlankLines(data);
    JsRowsNonBlank(data, parse);
    JsRowsAppend([header], data, parse);
  }
}
