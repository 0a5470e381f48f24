/**
 The CSV report: the account with id k is written on line k, skipped ids leave blank lines. The
 inner loop waits for the row counter to reach the id, so it only ends for ids not yet passed.
 */
module GenesisCsv {
  import opened Numerals
  import opened DigitGrouping
  import opened WeiFormat
  import opened Wrappers

  datatype Row = Row(id: int, address: string, balance: nat)

  function Header(): (h: string)
    ensures '\n' !in h
  {
    "RowNo,Address," + "FLR_balance_dec," + "FLR_balance_hex"
  }

  /** `toHexString` of a non-negative value: prefixed and of even length. */
  function HexText(n: nat): string
  {
    var h := ToBase(n, 16);
    "0x" + (if |h| % 2 == 1 then "0" else "") + h
  }

  function ToText(i: int): string
  {
    if i < 0 then "-" + ToBase(-i, 10) else ToBase(i, 10)
  }

  function Amounts(balance: nat): string
  {
    "\",\"" + FormatWei(balance, 0) + "\",\"" + HexText(balance) + "\""
  }

  function RowText(a: Row): string
  {
    ToText(a.id) + ",\"" + a.address + Amounts(a.balance)
  }

  /** A row as far as its placement is concerned: its number and its finished text. */
  datatype Entry = Entry(id: int, text: string)

  function Entries(accounts: seq<Row>): seq<Entry>
  {
    seq(|accounts|, i requires 0 <= i < |accounts| => Entry(accounts[i].id, RowText(accounts[i])))
  }

  // --- When the loops end -----------------------------------------------------------------

  predicate ReachedAfter(row: int, steps: nat, id: int)
  {
    row + steps == id
  }

  /** The inner loop, counting up from `row`, ever meets `id`. */
  ghost predicate InnerLoopEnds(row: int, id: int)
  {
    exists steps: nat :: ReachedAfter(row, steps, id)
  }

  /** All inner loops end, the counter standing at `row` before the first account. */
  ghost predicate LoopsEnd(entries: seq<Entry>, row: int)
    decreases |entries|
  {
    entries != [] ==> InnerLoopEnds(row, entries[0].id) && LoopsEnd(entries[1..], entries[0].id + 1)
  }

  ghost predicate Increasing(entries: seq<Entry>)
  {
    forall i, j :: 0 <= i < j < |entries| ==> entries[i].id < entries[j].id
  }

  lemma {:induction false} EndsFromRow(entries: seq<Entry>, row: int)
    ensures LoopsEnd(entries, row) <==> Increasing(entries) && (entries != [] ==> entries[0].id >= row)
    decreases |entries|
  {
    if entries != [] {
      var id := entries[0].id;
      EndsFromRow(entries[1..], id + 1);
      if id >= row {
        assert ReachedAfter(row, id - row, id);
      }
      if LoopsEnd(entries, row) {
        forall i, j | 0 <= i < j < |entries| ensures entries[i].id < entries[j].id {
          assert entries[j] == entries[1..][j - 1];
          if i > 0 {
            assert entries[i] == entries[1..][i - 1];
          } else if j > 1 {
            assert entries[1..][0].id < entries[1..][j - 1].id;
          }
        }
      }
      if Increasing(entries) {
        assert forall i :: 0 <= i < |entries[1..]| ==> entries[1..][i] == entries[i + 1];
      }
    }
  }

  /** The report is finished exactly for strictly increasing ids from 2 on; otherwise it loops forever. */
  lemma ReportTerminatesIff(entries: seq<Entry>)
    ensures LoopsEnd(entries, 2) <==> Increasing(entries) && (entries != [] ==> entries[0].id >= 2)
  {
    EndsFromRow(entries, 2);
  }

  // --- The report as lines ----------------------------------------------------------------

  function Blanks(n: nat): seq<string>
  {
    seq(n, i => "")
  }

  function Body(entries: seq<Entry>, row: int): seq<string>
    decreases |entries|
  {
    if entries == [] then []
    else
      var id := entries[0].id;
      Blanks(if id >= row then id - row else 0) + [entries[0].text] + Body(entries[1..], id + 1)
  }

  function CsvLines(entries: seq<Entry>): seq<string>
  {
    [Header()] + Body(entries, 2)
  }

  /** Every line followed by a newline. */
  function Joined(lines: seq<string>): string
  {
    if lines == [] then "" else lines[0] + "\n" + Joined(lines[1..])
  }

  lemma {:induction false} JoinedConcat(a: seq<string>, b: seq<string>)
    ensures Joined(a + b) == Joined(a) + Joined(b)
  {
    if a == [] {
      assert a + b == b;
    } else {
      JoinedConcat(a[1..], b);
      assert (a + b)[1..] == a[1..] + b;
    }
  }

  lemma JoinedOne(a: seq<string>, line: string)
    ensures Joined(a + [line]) == Joined(a) + (line + "\n")
  {
    JoinedConcat(a, [line]);
    assert Joined([line]) == line + "\n" + Joined([]);
  }

  lemma BlanksGrow(n: nat)
    ensures Blanks(n + 1) == Blanks(n) + [""]
  {
  }

  /** The inner `while`: blank lines until the row counter stands at the id. */
  method SkipTo(id: int, row0: int, text: string, ghost done: seq<string>) returns (stringOutput: string, rowNo: int)
    requires InnerLoopEnds(row0, id)
    requires text == Joined(done)
    ensures rowNo == id && row0 <= id
    ensures stringOutput == Joined(done + Blanks(id - row0))
  {
    ghost var steps: nat :| ReachedAfter(row0, steps, id);
    stringOutput, rowNo := text, row0;
    assert done + Blanks(0) == done;
    while id != rowNo
      invariant row0 <= rowNo <= id
      invariant stringOutput == Joined(done + Blanks(rowNo - row0))
      decreases id - rowNo
    {
      BlanksGrow(rowNo - row0);
      assert done + Blanks(rowNo - row0 + 1) == (done + Blanks(rowNo - row0)) + [""];
      JoinedOne(done + Blanks(rowNo - row0), "");
      stringOutput := stringOutput + "\n";
      rowNo := rowNo + 1;
    }
  }

  lemma NextRow(entries: seq<Entry>, i: nat, row: int, done: seq<string>)
    requires i < |entries| && row <= entries[i].id
    ensures done + Body(entries[i..], row)
         == done + Blanks(entries[i].id - row) + [entries[i].text]
            + Body(entries[i + 1..], entries[i].id + 1)
  {
  }

  method AccountsCSV(accounts: seq<Row>) returns (stringOutput: string)
    requires LoopsEnd(Entries(accounts), 2)
    ensures stringOutput == Joined(CsvLines(Entries(accounts)))
  {
    stringOutput := Header() + "\n";
    var rowNo := 2;
    ghost var entries, done := Entries(accounts), [Header()];
    JoinedOne([], Header());
    assert [] + [Header()] == [Header()];
    assert entries[0..] == entries;
    for i: nat := 0 to |accounts|
      invariant LoopsEnd(entries[i..], rowNo)
      invariant stringOutput == Joined(done)
      invariant done + Body(entries[i..], rowNo) == CsvLines(entries)
    {
      var account := accounts[i];
      var line := RowString(account);
      stringOutput, rowNo, done := WriteRow(account.id, line, rowNo, stringOutput, entries, i, done);
    }
    assert entries[|accounts|..] == [];
    assert done + [] == done;
  }

  /** The template string of one row. */
  method RowString(account: Row) returns (line: string)
    ensures line == RowText(account)
  {
    line := ToText(account.id) + ",\"" + account.address;
    line := line + Amounts(account.balance);
  }

  /** One round of the outer loop. */
  method WriteRow(id: int, line: string, row0: int, text: string, ghost entries: seq<Entry>, ghost i: nat,
                  ghost done: seq<string>)
      returns (stringOutput: string, rowNo: int, ghost done': seq<string>)
    requires i < |entries| && entries[i] == Entry(id, line) && LoopsEnd(entries[i..], row0)
    requires text == Joined(done)
    ensures LoopsEnd(entries[i + 1..], rowNo) && stringOutput == Joined(done')
    ensures done' + Body(entries[i + 1..], rowNo) == done + Body(entries[i..], row0)
  {
    assert entries[i..][0] == entries[i] && entries[i..][1..] == entries[i + 1..];
    stringOutput, rowNo := SkipTo(id, row0, text, done);
    NextRow(entries, i, row0, done);
    done' := done + Blanks(id - row0) + [line];
    stringOutput := AppendLine(stringOutput, line, done + Blanks(id - row0));
    rowNo := rowNo + 1;
  }

  method AppendLine(text: string, line: string, ghost done: seq<string>) returns (stringOutput: string)
    requires text == Joined(done)
    ensures stringOutput == Joined(done + [line])
  {
    JoinedOne(done, line);
    stringOutput := text + (line + "\n");
  }

  // --- Placement --------------------------------------------------------------------------

  predicate Unused(entries: seq<Entry>, n: int)
  {
    forall i :: 0 <= i < |entries| ==> entries[i].id != n
  }

  lemma {:induction false} BodyLength(entries: seq<Entry>, row: int)
    requires LoopsEnd(entries, row)
    ensures |Body(entries, row)| == if entries == [] then 0 else entries[|entries| - 1].id - row + 1
    decreases |entries|
  {
    if entries != [] {
      EndsFromRow(entries, row);
      BodyLength(entries[1..], entries[0].id + 1);
    }
  }

  lemma BodySplit(entries: seq<Entry>, row: int, k: nat)
    requires entries != [] && entries[0].id >= row && k < |Body(entries, row)|
    ensures var skip, tail := entries[0].id - row, Body(entries[1..], entries[0].id + 1);
            && |Body(entries, row)| == skip + 1 + |tail|
            && Body(entries, row)[k]
               == if k < skip then "" else if k == skip then entries[0].text else tail[k - skip - 1]
  {
  }

  lemma {:induction false} BodyAtEntry(entries: seq<Entry>, row: int, i: nat)
    requires LoopsEnd(entries, row) && i < |entries|
    ensures row <= entries[i].id < row + |Body(entries, row)|
    ensures Body(entries, row)[entries[i].id - row] == entries[i].text
    decreases |entries|
  {
    FirstIdAhead(entries, row);
    if i == 0 {
      BodyLengthSplit(entries, row);
      BodySplit(entries, row, entries[0].id - row);
    } else {
      BodyAtEntry(entries[1..], entries[0].id + 1, i - 1);
      BodyOfLater(entries, row, entries[1..], entries[0].id + 1, i);
    }
  }

  lemma BodyOfLater(entries: seq<Entry>, row: int, tail: seq<Entry>, next: int, i: nat)
    requires 0 < i < |entries| && row <= entries[0].id && tail == entries[1..] && next == entries[0].id + 1
    requires next <= tail[i - 1].id < next + |Body(tail, next)|
    requires Body(tail, next)[tail[i - 1].id - next] == tail[i - 1].text
    ensures row <= entries[i].id < row + |Body(entries, row)|
    ensures Body(entries, row)[entries[i].id - row] == entries[i].text
  {
    assert tail[i - 1] == entries[i];
    BodyUnfolds(entries, row, tail, next);
    var front := Blanks(entries[0].id - row) + [entries[0].text];
    LaterElement(front, Body(tail, next), entries[i].id - next, entries[i].id - row);
  }

  lemma BodyUnfolds(entries: seq<Entry>, row: int, tail: seq<Entry>, next: int)
    requires entries != [] && row <= entries[0].id && tail == entries[1..] && next == entries[0].id + 1
    ensures Body(entries, row) == (Blanks(entries[0].id - row) + [entries[0].text]) + Body(tail, next)
    ensures |Blanks(entries[0].id - row) + [entries[0].text]| == next - row
  {
  }

  lemma LaterElement(front: seq<string>, rest: seq<string>, k: nat, n: int)
    requires k < |rest| && n == |front| + k
    ensures 0 <= n < |front + rest| && (front + rest)[n] == rest[k]
  {
  }

  lemma FirstIdAhead(entries: seq<Entry>, row: int)
    requires LoopsEnd(entries, row) && entries != []
    ensures row <= entries[0].id && LoopsEnd(entries[1..], entries[0].id + 1)
  {
  }

  lemma BodyLengthSplit(entries: seq<Entry>, row: int)
    requires entries != [] && row <= entries[0].id
    ensures |Body(entries, row)| == entries[0].id - row + 1 + |Body(entries[1..], entries[0].id + 1)|
  {
  }

  lemma {:induction false} BodyBlank(entries: seq<Entry>, row: int, n: int)
    requires LoopsEnd(entries, row) && row <= n < row + |Body(entries, row)| && Unused(entries, n)
    ensures Body(entries, row)[n - row] == ""
    decreases |entries|
  {
    EndsFromRow(entries, row);
    BodySplit(entries, row, n - row);
    if n > entries[0].id {
      assert Unused(entries[1..], n) by {
        forall i | 0 <= i < |entries[1..]| ensures entries[1..][i].id != n {
          assert entries[1..][i] == entries[i + 1];
        }
      }
      BodyBlank(entries[1..], entries[0].id + 1, n);
    }
  }

  /** The text cut at its newlines; what follows the last newline is the final piece. */
  function Lines(s: string): seq<string>
  {
    var i := IndexOf(s, '\n');
    if i < 0 then [s] else [s[..i]] + Lines(s[i + 1..])
  }

  lemma FirstLine(line: string, rest: string)
    requires '\n' !in line
    ensures Lines(line + ['\n'] + rest) == [line] + Lines(rest)
  {
    var s := line + ['\n'] + rest;
    IndexOfFirst(line, rest, '\n');
    assert s[..|line|] == line && s[|line| + 1..] == rest;
  }

  lemma {:induction false} LinesOfJoined(lines: seq<string>)
    requires forall i :: 0 <= i < |lines| ==> '\n' !in lines[i]
    ensures Lines(Joined(lines)) == lines + [""]
  {
    if lines != [] {
      LinesOfJoined(lines[1..]);
      FirstLine(lines[0], Joined(lines[1..]));
      assert Joined(lines) == lines[0] + ['\n'] + Joined(lines[1..]);
      assert [lines[0]] + (lines[1..] + [""]) == lines + [""];
    }
  }

  // --- No row text breaks a line ----------------------------------------------------------

  lemma {:induction false} GroupedKeepsOut(x: string, sep: char, c: char)
    requires c !in x && c != sep
    ensures c !in Grouped(x, sep)
    decreases |x|
  {
    if |x| > 3 {
      GroupedKeepsOut(x[..|x| - 3], sep, c);
    }
  }

  lemma NumeralKeepsOut(s: string, base: nat, c: char)
    requires 2 <= base <= 16 && AllDigits(s, base) && DigitValue(c) == 16
    ensures c !in s
  {
  }

  /** The printout holds digits, commas, blanks and the point only. */
  lemma FormatKeepsOut(v: nat, c: char)
    requires DigitValue(c) == 16 && c !in {',', ' ', '.'}
    ensures c !in FormatWei(v, 0)
  {
    var hi, lo := ToBase(v / WEI_PER_NATIVE, 10), SliceLast(ToBase(v, 10), 18);
    ParsePrinted(v / WEI_PER_NATIVE, 10);
    LastDigits(v);
    NumeralKeepsOut(hi, 10, c);
    NumeralKeepsOut(lo, 10, c);
    DigitsAreDec(hi);
    DigitsAreDec(lo);
    RegexRefinesGrouped(hi, ',');
    RegexRefinesGrouped(lo, ' ');
    GroupedKeepsOut(hi, ',', c);
    GroupedKeepsOut(lo, ' ', c);
  }

  lemma HexTextKeepsOut(n: nat, c: char)
    requires DigitValue(c) == 16 && c != 'x'
    ensures c !in HexText(n)
  {
    ParsePrinted(n, 16);
    NumeralKeepsOut(ToBase(n, 16), 16, c);
  }

  lemma ConcatKeepsOut(a: string, b: string, c: char)
    ensures c !in a + b <==> c !in a && c !in b
  {
  }

  lemma AmountsHaveNoNewline(balance: nat)
    ensures '\n' !in Amounts(balance)
  {
    FormatKeepsOut(balance, '\n');
    HexTextKeepsOut(balance, '\n');
  }

  lemma TextKeepsOut(i: int, c: char)
    requires DigitValue(c) == 16 && c != '-'
    ensures c !in ToText(i)
  {
    var n := if i < 0 then -i else i;
    ParsePrinted(n, 10);
    NumeralKeepsOut(ToBase(n, 10), 10, c);
    ConcatKeepsOut("-", ToBase(n, 10), c);
  }

  lemma FourPartsKeepOut(a: string, b: string, address: string, d: string, c: char)
    requires c !in a && c !in b && c !in d
    ensures c !in a + b + address + d <==> c !in address
  {
  }

  /** A row stays on one line exactly when the address does. */
  lemma RowHasNoNewline(a: Row)
    ensures '\n' !in RowText(a) <==> '\n' !in a.address
  {
    TextKeepsOut(a.id, '\n');
    AmountsHaveNoNewline(a.balance);
    FourPartsKeepOut(ToText(a.id), ",\"", a.address, Amounts(a.balance), '\n');
  }

  lemma BodyHasNoNewline(entries: seq<Entry>, row: int, k: nat)
    requires LoopsEnd(entries, row) && k < |Body(entries, row)|
    requires forall i :: 0 <= i < |entries| ==> '\n' !in entries[i].text
    ensures '\n' !in Body(entries, row)[k]
  {
    if Unused(entries, row + k) {
      BodyBlank(entries, row, row + k);
    } else {
      var i :| 0 <= i < |entries| && entries[i].id == row + k;
      BodyAtEntry(entries, row, i);
    }
  }

  lemma LinesBelowHeader(header: string, body: seq<string>)
    requires '\n' !in header && forall k :: 0 <= k < |body| ==> '\n' !in body[k]
    ensures Lines(Joined([header] + body)) == [header] + body + [""]
  {
    var lines := [header] + body;
    forall i | 0 <= i < |lines| ensures '\n' !in lines[i] {
      if i > 0 { assert lines[i] == body[i - 1]; }
    }
    LinesOfJoined(lines);
  }

  lemma FileIsLines(header: string, entries: seq<Entry>)
    requires LoopsEnd(entries, 2) && '\n' !in header
    requires forall i :: 0 <= i < |entries| ==> '\n' !in entries[i].text
    ensures Lines(Joined([header] + Body(entries, 2))) == [header] + Body(entries, 2) + [""]
  {
    var body := Body(entries, 2);
    forall k | 0 <= k < |body| ensures '\n' !in body[k] {
      BodyHasNoNewline(entries, 2, k);
    }
    LinesBelowHeader(header, body);
  }

  /** The entry with id k stands on line k of the file, skipped lines are blank. */
  ghost predicate PlacedIn(file: seq<string>, header: string, entries: seq<Entry>)
  {
    && |file| == (if entries == [] then 2 else entries[|entries| - 1].id + 1)
    && |file| >= 2 && file[0] == header && file[|file| - 1] == ""
    && (forall i :: 0 <= i < |entries| ==>
          2 <= entries[i].id <= |file| - 1 && file[entries[i].id - 1] == entries[i].text)
    && (forall n :: 2 <= n <= |file| - 1 && Unused(entries, n) ==> file[n - 1] == "")
  }

  lemma LinesArePlaced(header: string, entries: seq<Entry>)
    requires LoopsEnd(entries, 2)
    ensures PlacedIn([header] + Body(entries, 2) + [""], header, entries)
  {
    var body := Body(entries, 2);
    var file := [header] + body + [""];
    BodyLength(entries, 2);
    EndsFromRow(entries, 2);
    forall i | 0 <= i < |entries|
      ensures 2 <= entries[i].id <= |file| - 1 && file[entries[i].id - 1] == entries[i].text
    {
      BodyAtEntry(entries, 2, i);
    }
    forall n | 2 <= n <= |file| - 1 && Unused(entries, n) ensures file[n - 1] == "" {
      BodyBlank(entries, 2, n);
    }
  }

  /** Read as a file, the report has the account with id k on line k and nothing on skipped lines. */
  lemma CsvPlacement(accounts: seq<Row>)
    requires LoopsEnd(Entries(accounts), 2)
    requires forall i :: 0 <= i < |accounts| ==> '\n' !in accounts[i].address
    ensures PlacedIn(Lines(Joined(CsvLines(Entries(accounts)))), Header(), Entries(accounts))
  {
    forall i | 0 <= i < |accounts| ensures '\n' !in Entries(accounts)[i].text {
      RowHasNoNewline(accounts[i]);
    }
    FileIsLines(Header(), Entries(accounts));
    LinesArePlaced(Header(), Entries(accounts));
  }

  // --- The columns ------------------------------------------------------------------------

  /** A line cut at the commas outside quotes, the quotes dropped. */
  function CellsFrom(s: string, cell: string, quoted: bool): seq<string>
    decreases |s|
  {
    if s == [] then [cell]
    else if s[0] == '"' then CellsFrom(s[1..], cell, !quoted)
    else if s[0] == ',' && !quoted then [cell] + CellsFrom(s[1..], "", false)
    else CellsFrom(s[1..], cell + [s[0]], quoted)
  }

  function Cells(line: string): seq<string>
  {
    CellsFrom(line, "", false)
  }

  lemma {:induction false} PlainRun(text: string, rest: string, cell: string, quoted: bool)
    requires '"' !in text && (quoted || ',' !in text)
    ensures CellsFrom(text + rest, cell, quoted) == CellsFrom(rest, cell + text, quoted)
    decreases |text|
  {
    if text == [] {
      assert text + rest == rest && cell + text == cell;
    } else {
      assert (text + rest)[1..] == text[1..] + rest;
      PlainRun(text[1..], rest, cell + [text[0]], quoted);
      assert cell + [text[0]] + text[1..] == cell + text;
    }
  }

  /** A quoted text and the comma before it: the cell so far ends, the text begins the next. */
  function Quoted(text: string): string
  {
    ",\"" + text + "\""
  }

  lemma QuotedCell(cell: string, text: string, rest: string)
    requires '"' !in text
    ensures CellsFrom(Quoted(text) + rest, cell, false) == [cell] + CellsFrom(rest, text, false)
  {
    var s := Quoted(text) + rest;
    var inner := text + ("\"" + rest);
    assert s[0] == ',' && s[1..][0] == '"' && s[1..][1..] == inner;
    PlainRun(text, "\"" + rest, "", true);
    assert ("\"" + rest)[1..] == rest && "" + text == text;
  }

  lemma AmountsLayout(c: string, d: string)
    ensures "\",\"" + c + "\",\"" + d + "\"" == "\"" + (Quoted(c) + (Quoted(d) + ""))
  {
    assert "\",\"" == "\"" + ",\"";
    assert Quoted(d) + "" == ",\"" + d + "\"";
  }

  lemma AddressLayout(id: string, b: string, rest: string)
    ensures id + ",\"" + b + ("\"" + rest) == id + (Quoted(b) + rest)
  {
  }

  lemma RowLayout(a: Row)
    ensures RowText(a) == ToText(a.id) + (Quoted(a.address)
                            + (Quoted(FormatWei(a.balance, 0)) + (Quoted(HexText(a.balance)) + "")))
  {
    AmountsLayout(FormatWei(a.balance, 0), HexText(a.balance));
    AddressLayout(ToText(a.id), a.address, Quoted(FormatWei(a.balance, 0)) + (Quoted(HexText(a.balance)) + ""));
  }

  lemma FourCells(first: string, b: string, c: string, d: string)
    requires '"' !in first && ',' !in first && '"' !in b && '"' !in c && '"' !in d
    ensures Cells(first + (Quoted(b) + (Quoted(c) + (Quoted(d) + "")))) == [first, b, c, d]
  {
    var r3 := Quoted(d) + "";
    var r2 := Quoted(c) + r3;
    var r1 := Quoted(b) + r2;
    PlainRun(first, r1, "", false);
    assert "" + first == first;
    QuotedCell(first, b, r2);
    QuotedCell(b, c, r3);
    QuotedCell(c, d, "");
    assert CellsFrom("", d, false) == [d];
    assert [first] + ([b] + ([c] + [d])) == [first, b, c, d];
  }

  lemma RowCells(a: Row)
    requires '"' !in a.address
    ensures Cells(RowText(a)) == [ToText(a.id), a.address, FormatWei(a.balance, 0), HexText(a.balance)]
  {
    TextKeepsOut(a.id, '"');
    TextKeepsOut(a.id, ',');
    FormatKeepsOut(a.balance, '"');
    HexTextKeepsOut(a.balance, '"');
    RowLayout(a);
    FourCells(ToText(a.id), a.address, FormatWei(a.balance, 0), HexText(a.balance));
  }

  lemma PlainCell(text: string, rest: string)
    requires '"' !in text && ',' !in text
    ensures CellsFrom(text + ("," + rest), "", false) == [text] + CellsFrom(rest, "", false)
  {
    PlainRun(text, "," + rest, "", false);
    assert ("," + rest)[1..] == rest && "" + text == text;
  }

  lemma FourPlainCells(a: string, b: string, c: string, d: string)
    requires '"' !in a + b + c + d && ',' !in a + b + c + d
    ensures Cells(a + ("," + (b + ("," + (c + ("," + d)))))) == [a, b, c, d]
  {
    var r3 := d;
    var r2 := c + ("," + r3);
    var r1 := b + ("," + r2);
    PlainCell(a, r1);
    PlainCell(b, r2);
    PlainCell(c, r3);
    PlainRun(d, "", "", false);
    assert d + "" == d && "" + d == d;
    assert CellsFrom("", d, false) == [d];
    assert [a] + ([b] + ([c] + [d])) == [a, b, c, d];
  }

  lemma HeaderLayout()
    ensures Header() == "RowNo" + ("," + ("Address" + ("," + ("FLR_balance_dec" + ("," + "FLR_balance_hex")))))
  {
  }

  lemma HeaderCells()
    ensures Cells(Header()) == ["RowNo", "Address", "FLR_balance_dec", "FLR_balance_hex"]
  {
    HeaderLayout();
    FourPlainCells("RowNo", "Address", "FLR_balance_dec", "FLR_balance_hex");
  }

  /** The text has even length and no leading zero that this does not take. */
  lemma HexTextShape(n: nat)
    ensures |HexText(n)| >= 4 && |HexText(n)| % 2 == 0
    ensures n > 0 ==> HexText(n)[2] != '0' || HexText(n)[3] != '0'
  {
    var h := ToBase(n, 16);
    PrintedIsCanonical(n, 16);
    if |h| % 2 == 1 {
      assert HexText(n)[3] == h[0];
    } else {
      assert HexText(n)[2] == h[0];
    }
  }

  /** The printed balance reads back; padding to even length does not change what it reads to. */
  lemma HexTextReads(n: nat)
    ensures BigNumberFrom(HexText(n)) == Some(n)
  {
    var h := ToBase(n, 16);
    ParsePrinted(n, 16);
    LeadingZero(h);
    if |h| % 2 == 1 {
      HexDigitsRead("0" + h);
      assert HexText(n) == "0x" + ("0" + h);
    } else {
      HexDigitsRead(h);
      assert HexText(n) == "0x" + h;
    }
  }

  lemma LeadingZero(h: string)
    requires IsNumeral(h, 16)
    ensures IsNumeral("0" + h, 16) && Parse("0" + h, 16) == Parse(h, 16)
  {
    ParseConcat("0", h, 16);
    assert "0"[..0] == [];
    assert Parse("0", 16) == 0;
  }

  lemma TextReads(i: int)
    ensures BigNumberFrom(ToText(i)) == Some(i)
  {
    var n := if i < 0 then -i else i;
    ParsePrinted(n, 10);
    DecimalReads(ToBase(n, 10));
    if i < 0 {
      assert ("-" + ToBase(n, 10))[1..] == ToBase(n, 10);
    }
  }

  /** Number, address, decimal and hexadecimal balance, in this order, each read in its own way. */
  ghost predicate HoldsColumns(line: string, a: Row)
  {
    var cells := Cells(line);
    && |cells| == 4
    && BigNumberFrom(cells[0]) == Some(a.id)
    && cells[1] == a.address
    && ReadPrinted(cells[2]) == Some(a.balance)
    && BigNumberFrom(cells[3]) == Some(a.balance)
  }

  /** Every column of the finished report holds what its header says. */
  lemma CsvColumns(accounts: seq<Row>, i: nat)
    requires LoopsEnd(Entries(accounts), 2) && i < |accounts|
    requires forall k :: 0 <= k < |accounts| ==> '\n' !in accounts[k].address
    requires '"' !in accounts[i].address
    ensures var file := Lines(Joined(CsvLines(Entries(accounts))));
            && Cells(file[0]) == ["RowNo", "Address", "FLR_balance_dec", "FLR_balance_hex"]
            && 2 <= accounts[i].id < |file| && HoldsColumns(file[accounts[i].id - 1], accounts[i])
  {
    CsvPlacement(accounts);
    HeaderCells();
    RowReads(accounts[i]);
    InPlace(Lines(Joined(CsvLines(Entries(accounts)))), accounts, i);
  }

  lemma InPlace(file: seq<string>, accounts: seq<Row>, i: nat)
    requires PlacedIn(file, Header(), Entries(accounts)) && i < |accounts|
    ensures 2 <= accounts[i].id < |file| && file[0] == Header() && file[accounts[i].id - 1] == RowText(accounts[i])
  {
    assert Entries(accounts)[i] == Entry(accounts[i].id, RowText(accounts[i]));
  }

  lemma ColumnsRead(line: string, a: Row, number: string, decimal: string, hex: string)
    requires Cells(line) == [number, a.address, decimal, hex]
    requires BigNumberFrom(number) == Some(a.id)
    requires ReadPrinted(decimal) == Some(a.balance) && BigNumberFrom(hex) == Some(a.balance)
    ensures HoldsColumns(line, a)
  {
  }

  lemma RowReads(a: Row)
    requires '"' !in a.address
    ensures HoldsColumns(RowText(a), a)
  {
    RowCells(a);
    TextReads(a.id);
    PrintedReads(a.balance, 0);
    HexTextReads(a.balance);
    ColumnsRead(RowText(a), a, ToText(a.id), FormatWei(a.balance, 0), HexText(a.balance));
  }
}
