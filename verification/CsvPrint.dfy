/** `contract list --format csv`, and a reader of section 2 of RFC 4180 that
    also accepts a bare LF as line end. */
module CsvPrint {
  import opened Wrappers
  import Text

  /** A listed contract; the update time is already formatted. */
  datatype Contract = Contract(
    contractId: string, name: string, network: string, category: Option<string>, updatedAt: string)

  type Record = seq<string>

  /** "address,name,network,category,last_update" */
  const HEADER_LINE: string := "address" + "," + "name" + "," + "network" + "," + "category" + "," + "last_update"
  const HEADER: Record := ["address", "name", "network", "category", "last_update"]

  function Row(contract: Contract): Record {
    [contract.contractId, contract.name, contract.network, contract.category.GetOr(""), contract.updatedAt]
  }

  // ---- the printer -------------------------------------------------------------

  predicate IsSpecial(c: char) {
    c == ',' || c == '"' || c == '\n' || c == '\r'
  }

  predicate NeedsQuotes(value: string) {
    exists c :: c in value && IsSpecial(c)
  }

  function DoubleQuotes(value: string): string {
    if value == "" then ""
    else (if value[0] == '"' then "\"\"" else [value[0]]) + DoubleQuotes(value[1..])
  }

  function CsvEscape(value: string): string {
    if NeedsQuotes(value) then "\"" + DoubleQuotes(value) + "\"" else value
  }

  function Escaped(cells: Record): (r: seq<string>)
    ensures |r| == |cells|
  {
    if cells == [] then [] else [CsvEscape(cells[0])] + Escaped(cells[1..])
  }

  function Line(cells: Record): string {
    Text.Join(Escaped(cells), ",") + "\n"
  }

  function Document(records: seq<Record>): string {
    if records == [] then "" else Line(records[0]) + Document(records[1..])
  }

  function Rows(items: seq<Contract>): (r: seq<Record>)
    ensures |r| == |items|
  {
    if items == [] then [] else [Row(items[0])] + Rows(items[1..])
  }

  method PrintCsv(items: seq<Contract>) returns (out: string)
    ensures out == Document([HEADER] + Rows(items))
    ensures ReadsAsListing(out, items)
  {
    PrintedBack(items);
    out := HEADER_LINE + "\n";
    HeaderLine();
    HeaderFirst(items);
    for i := 0 to |items|
      invariant out + Document(Rows(items[i..])) == Document([HEADER] + Rows(items))
    {
      var cells := Row(items[i]);
      NextLine(out, items, i);
      out := out + (Text.Join(Escaped(cells), ",") + "\n");
    }
    assert items[|items|..] == [];
    assert out + "" == out;
  }

  lemma {:induction false} HeaderFirst(items: seq<Contract>)
    ensures Document([HEADER] + Rows(items)) == Line(HEADER) + Document(Rows(items[0..]))
  {
    assert ([HEADER] + Rows(items))[1..] == Rows(items) && items[0..] == items;
  }

  lemma {:induction false} NextLine(out: string, items: seq<Contract>, i: nat)
    requires i < |items|
    ensures out + Document(Rows(items[i..])) == out + Line(Row(items[i])) + Document(Rows(items[i + 1..]))
  {
    assert items[i..][0] == items[i] && items[i..][1..] == items[i + 1..];
    assert Document(Rows(items[i..])) == Line(Row(items[i])) + Document(Rows(items[i + 1..]));
  }

  // ---- the reader ----------------------------------------------------------------

  /** The rest of a quoted field after its opening quote, and what follows. */
  function ReadQuoted(s: string): (r: Option<(string, string)>)
    ensures r.Some? ==> |r.value.1| < |s|
  {
    if s == "" then None
    else if s[0] != '"' then
      match ReadQuoted(s[1..])
      case None => None
      case Some((v, rest)) => Some(([s[0]] + v, rest))
    else if |s| > 1 && s[1] == '"' then
      match ReadQuoted(s[2..])
      case None => None
      case Some((v, rest)) => Some((['"'] + v, rest))
    else Some(("", s[1..]))
  }

  function ReadPlain(s: string): (r: (string, string))
    ensures |r.1| <= |s|
  {
    if s == "" || IsSpecial(s[0]) then ("", s)
    else
      var (v, rest) := ReadPlain(s[1..]);
      ([s[0]] + v, rest)
  }

  function ReadField(s: string): (r: Option<(string, string)>)
    ensures r.Some? ==> |r.value.1| <= |s|
  {
    if s != "" && s[0] == '"' then ReadQuoted(s[1..]) else Some(ReadPlain(s))
  }

  /** One record: fields separated by commas, up to a line end or the end of the file. */
  function ReadRecord(s: string): (r: Option<(Record, string)>)
    ensures r.Some? && s != "" ==> |r.value.1| < |s|
    decreases |s|
  {
    match ReadField(s)
    case None => None
    case Some((v, rest)) =>
      if rest == "" then Some(([v], ""))
      else if rest[0] == '\n' then Some(([v], rest[1..]))
      else if rest[0] == '\r' && |rest| > 1 && rest[1] == '\n' then Some(([v], rest[2..]))
      else if rest[0] == ',' then
        match ReadRecord(rest[1..])
        case None => None
        case Some((cells, after)) => Some(([v] + cells, after))
      else None
  }

  function ReadFile(s: string): Option<seq<Record>>
    decreases |s|
  {
    if s == "" then Some([])
    else match ReadRecord(s)
      case None => None
      case Some((cells, rest)) =>
        match ReadFile(rest)
        case None => None
        case Some(records) => Some([cells] + records)
  }

  // ---- the round trip --------------------------------------------------------------

  lemma {:induction false} QuotedBack(v: string, rest: string)
    requires rest == "" || rest[0] != '"'
    ensures ReadQuoted(DoubleQuotes(v) + "\"" + rest) == Some((v, rest))
  {
    var s := DoubleQuotes(v) + "\"" + rest;
    if v == "" {
      assert s == ['"'] + rest;
      assert s[1..] == rest;
    } else {
      var tail := DoubleQuotes(v[1..]) + "\"" + rest;
      QuotedBack(v[1..], rest);
      if v[0] == '"' {
        assert s == ['"', '"'] + tail;
        assert s[2..] == tail;
      } else {
        assert s == [v[0]] + tail;
        assert s[1..] == tail;
      }
      assert v == [v[0]] + v[1..];
    }
  }

  lemma {:induction false} PlainBack(v: string, rest: string)
    requires !NeedsQuotes(v) && (rest == "" || IsSpecial(rest[0]))
    ensures ReadPlain(v + rest) == (v, rest)
  {
    if v == "" {
      assert v + rest == rest;
    } else {
      assert v[0] in v;
      assert (v + rest)[1..] == v[1..] + rest;
      PlainBack(v[1..], rest);
      assert v == [v[0]] + v[1..];
    }
  }

  lemma {:induction false} QuotedFieldBack(v: string, rest: string)
    requires rest != "" && rest[0] != '"'
    ensures ReadField("\"" + DoubleQuotes(v) + "\"" + rest) == Some((v, rest))
  {
    QuotedBack(v, rest);
    var s := "\"" + DoubleQuotes(v) + "\"" + rest;
    assert s == ['"'] + (DoubleQuotes(v) + "\"" + rest);
    assert s[1..] == DoubleQuotes(v) + "\"" + rest;
  }

  lemma {:induction false} PlainFieldBack(v: string, rest: string)
    requires !NeedsQuotes(v) && rest != "" && (rest[0] == ',' || rest[0] == '\n')
    ensures ReadField(v + rest) == Some((v, rest))
  {
    PlainBack(v, rest);
    if v == "" {
      assert v + rest == rest;
    } else {
      assert v[0] in v && (v + rest)[0] == v[0];
    }
  }

  lemma {:induction false} FieldBack(v: string, rest: string)
    requires rest != "" && (rest[0] == ',' || rest[0] == '\n')
    ensures ReadField(CsvEscape(v) + rest) == Some((v, rest))
  {
    if NeedsQuotes(v) {
      QuotedFieldBack(v, rest);
    } else {
      PlainFieldBack(v, rest);
    }
  }

  lemma {:induction false} RecordBack(cells: Record, rest: string)
    requires cells != []
    ensures ReadRecord(Line(cells) + rest) == Some((cells, rest))
  {
    var first := CsvEscape(cells[0]);
    if |cells| == 1 {
      assert Escaped(cells) == [first] by { assert cells[1..] == []; }
      assert Line(cells) + rest == first + (['\n'] + rest);
      FieldBack(cells[0], ['\n'] + rest);
      assert cells == [cells[0]];
    } else {
      var more := Line(cells[1..]) + rest;
      assert Escaped(cells)[1..] == Escaped(cells[1..]);
      assert Line(cells) + rest == first + ([','] + more);
      FieldBack(cells[0], [','] + more);
      RecordBack(cells[1..], rest);
      assert ([','] + more)[1..] == more;
      assert cells == [cells[0]] + cells[1..];
    }
  }

  /** Reading back printed records gives exactly those records, whatever
      characters their cells contain. */
  lemma {:induction false} DocumentBack(records: seq<Record>)
    requires forall i :: 0 <= i < |records| ==> records[i] != []
    ensures ReadFile(Document(records)) == Some(records)
  {
    if records != [] {
      RecordBack(records[0], Document(records[1..]));
      DocumentBack(records[1..]);
      assert records == [records[0]] + records[1..];
    }
  }

  lemma {:induction false} RowsNotEmpty(items: seq<Contract>)
    ensures forall i :: 0 <= i < |items| ==> Rows(items)[i] == Row(items[i])
  {
    if items != [] {
      RowsNotEmpty(items[1..]);
    }
  }

  /** A contract's cells under their headers. */
  ghost predicate CellsOf(cells: Record, item: Contract) {
    && |cells| == 5
    && cells[0] == item.contractId && cells[1] == item.name && cells[2] == item.network
    && cells[3] == (if item.category.Some? then item.category.value else "") && cells[4] == item.updatedAt
  }

  /** What a reader finds in a printed listing: the header, and under it the cells
      of each contract. */
  ghost predicate ReadsAsListing(text: string, items: seq<Contract>) {
    var read := ReadFile(text);
    && read.Some? && |read.value| == |items| + 1
    && read.value[0] == ["address", "name", "network", "category", "last_update"]
    && forall i :: 0 <= i < |items| ==> CellsOf(read.value[i + 1], items[i])
  }

  /** The printed listing reads back as the header and one record per contract. */
  lemma {:induction false} PrintedBack(items: seq<Contract>)
    ensures ReadFile(Document([HEADER] + Rows(items))) == Some([HEADER] + Rows(items))
    ensures ReadsAsListing(Document([HEADER] + Rows(items)), items)
  {
    RowsNotEmpty(items);
    DocumentBack([HEADER] + Rows(items));
  }

  /** A cell is quoted only when it needs to be. */
  lemma {:induction false} QuotedWhenNeeded(value: string)
    ensures CsvEscape(value) == value <==> ',' !in value && '"' !in value && '\n' !in value && '\r' !in value
    ensures CsvEscape(value) != value ==> |CsvEscape(value)| >= |value| + 2 && CsvEscape(value)[0] == '"'
  {
    DoublingLengthens(value);
  }

  lemma {:induction false} DoublingLengthens(value: string)
    ensures |DoubleQuotes(value)| >= |value|
  {
    if value != "" { DoublingLengthens(value[1..]); }
  }

  lemma {:induction false} HeaderLine()
    ensures Line(HEADER) == HEADER_LINE + "\n"
  {
    EscapedFive("address", "name", "network", "category", "last_update");
    JoinFive("address", "name", "network", "category", "last_update");
  }

  lemma {:induction false} EscapedFive(a: string, b: string, c: string, d: string, e: string)
    requires !NeedsQuotes(a) && !NeedsQuotes(b) && !NeedsQuotes(c) && !NeedsQuotes(d) && !NeedsQuotes(e)
    ensures Escaped([a, b, c, d, e]) == [a, b, c, d, e]
  {
    EscapedPlain([a, b, c, d, e]);
  }

  lemma {:induction false} EscapedPlain(cells: Record)
    requires forall i :: 0 <= i < |cells| ==> CsvEscape(cells[i]) == cells[i]
    ensures Escaped(cells) == cells
  {
    if cells != [] {
      EscapedPlain(cells[1..]);
    }
  }

  lemma {:induction false} JoinFive(a: string, b: string, c: string, d: string, e: string)
    ensures Text.Join([a, b, c, d, e], ",") == a + "," + b + "," + c + "," + d + "," + e
  {
    assert [a, b, c, d, e][1..] == [b, c, d, e] && [b, c, d, e][1..] == [c, d, e];
    assert [c, d, e][1..] == [d, e] && [d, e][1..] == [e];
    assert Text.Join([d, e], ",") == d + "," + e;
    assert Text.Join([c, d, e], ",") == c + "," + (d + "," + e);
    assert Text.Join([b, c, d, e], ",") == b + "," + (c + "," + (d + "," + e));
  }
}
