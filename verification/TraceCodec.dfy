/** The two file formats of a trace: fixed-width little-endian records and CSV lines. */
module TraceCodec {
  import opened Common
  import opened Text

  // The fields of a trace entry.
  datatype Record = Record(time: int, key: int, size: int, nextVtime: int)

  datatype CodecError = StructError | ValueError | IndexError

  const TWO32: int := 0x1_0000_0000
  const TWO63: int := 0x8000_0000_0000_0000
  const TWO64: int := 0x1_0000_0000_0000_0000
  const RECORD_SIZE: nat := 24

  // ------------------------------------------------ little-endian numbers

  function Pow256(n: nat): (p: nat)
    ensures p > 0
  {
    if n == 0 then 1 else 256 * Pow256(n - 1)
  }

  function ToLittle(n: nat, x: nat): (bytes: seq<Byte>)
    ensures |bytes| == n
  {
    if n == 0 then [] else [x % 256] + ToLittle(n - 1, x / 256)
  }

  function FromLittle(bytes: seq<Byte>): nat {
    if bytes == [] then 0 else bytes[0] + 256 * FromLittle(bytes[1..])
  }

  lemma {:induction false} LittleRoundTrip(n: nat, x: nat)
    requires x < Pow256(n)
    ensures FromLittle(ToLittle(n, x)) == x
  {
    if n == 0 {
    } else {
      LittleRoundTrip(n - 1, x / 256);
      assert ToLittle(n, x)[1..] == ToLittle(n - 1, x / 256);
    }
  }

  lemma Widths()
    ensures Pow256(4) == TWO32 && Pow256(8) == TWO64
  {
    assert Pow256(1) == 256 && Pow256(2) == 0x1_0000 && Pow256(3) == 0x100_0000 && Pow256(4) == TWO32;
    assert Pow256(5) == 0x100_0000_0000 && Pow256(6) == 0x1_0000_0000_0000;
    assert Pow256(7) == 0x100_0000_0000_0000 && Pow256(8) == TWO64;
  }

  // Byte `i` of a number in two's complement, whatever its width and sign.
  function ByteAt(x: int, i: nat): Byte {
    x / Pow256(i) % 256
  }

  // Dividing in two steps.
  lemma DivDiv(x: int, a: int, b: int)
    requires a > 0 && b > 0
    ensures a * b > 0 && x / a / b == x / (a * b)
  {
    var q := x / a / b;
    var r := x / a - q * b;
    var s := x - (x / a) * a;
    assert x == (q * b + r) * a + s;
    Multiply(q, a, b, r, s);
    DivUnique(x, a * b, q, r * a + s);
  }

  lemma Multiply(q: int, a: int, b: int, r: int, s: int)
    requires 0 <= r < b && 0 <= s < a
    ensures a * b > 0 && (q * b + r) * a + s == q * (a * b) + (r * a + s)
    ensures 0 <= r * a + s < a * b
  {
    assert (q * b) * a == q * (a * b);
    assert r * a <= (b - 1) * a;
  }

  lemma DivUnique(x: int, d: int, q: int, r: int)
    requires d > 0 && 0 <= r < d && x == q * d + r
    ensures x / d == q && x % d == r
  {
    var p := x / d - q;
    assert p * d == r - x % d;
    AtLeastOnce(p, d);
  }

  lemma AtLeastOnce(p: int, d: int)
    requires d > 0
    ensures p > 0 ==> p * d >= d
    ensures p < 0 ==> p * d <= -d
  {
  }

  // Masking first changes no byte that is kept.
  lemma {:induction false} MaskedBytes(n: nat, x: int, i: nat)
    requires i < n
    ensures ToLittle(n, x % Pow256(n))[i] == ByteAt(x, i)
    decreases n
  {
    var p := Pow256(n - 1);
    HeadAndRest(x, p);
    if i > 0 {
      MaskedBytes(n - 1, x / 256, i - 1);
      DivDiv(x, 256, Pow256(i - 1));
    }
  }

  lemma HeadAndRest(x: int, p: int)
    requires p > 0
    ensures (x % (256 * p)) % 256 == x % 256
    ensures (x % (256 * p)) / 256 == (x / 256) % p
  {
    var y := x / 256;
    var q, b, r := y / p, y % p, x % 256;
    assert x == 256 * y + r && y == q * p + b;
    assert 256 * (q * p) == q * (256 * p);
    DivUnique(x, 256 * p, q, 256 * b + r);
    DivUnique(256 * b + r, 256, b, r);
  }

  // ------------------------------------------------ binary records

  predicate FitsSigned(x: int) {
    -TWO63 <= x < TWO63
  }

  function SignedToWord(x: int): nat
    requires FitsSigned(x)
  {
    if x < 0 then x + TWO64 else x
  }

  function WordToSigned(w: nat): int {
    if w >= TWO63 then w - TWO64 else w
  }

  // `to_bin`: masks the first three fields, and fails on a `next_vtime` that is not 64-bit.
  function RecordToBin(r: Record): Result<seq<Byte>, CodecError> {
    if !FitsSigned(r.nextVtime) then Err(StructError)
    else Ok(ToLittle(4, r.time % TWO32) + ToLittle(8, r.key % TWO64) + ToLittle(4, r.size % TWO32)
            + ToLittle(8, SignedToWord(r.nextVtime)))
  }

  function RecordFromBin(data: seq<Byte>): Result<Record, CodecError> {
    if |data| != RECORD_SIZE then Err(StructError)
    else Ok(Record(FromLittle(data[0..4]), FromLittle(data[4..12]), FromLittle(data[12..16]),
                   WordToSigned(FromLittle(data[16..24]))))
  }

  // What survives the masks.
  function Masked(r: Record): Record {
    Record(r.time % TWO32, r.key % TWO64, r.size % TWO32, r.nextVtime)
  }

  lemma RecordRoundTrip(r: Record)
    requires FitsSigned(r.nextVtime)
    ensures RecordToBin(r).Ok? && |RecordToBin(r).value| == RECORD_SIZE
    ensures RecordFromBin(RecordToBin(r).value) == Ok(Masked(r))
  {
    hide ToLittle, FromLittle, Pow256;
    Widths();
    LittleRoundTrip(4, r.time % TWO32);
    LittleRoundTrip(8, r.key % TWO64);
    LittleRoundTrip(4, r.size % TWO32);
    LittleRoundTrip(8, SignedToWord(r.nextVtime));
    Layout(ToLittle(4, r.time % TWO32), ToLittle(8, r.key % TWO64), ToLittle(4, r.size % TWO32),
           ToLittle(8, SignedToWord(r.nextVtime)));
  }

  // The bytes of a record: four of the time, eight of the key, four of the size and eight of
  // the next access, each from the lowest.
  lemma RecordBytes(r: Record, i: nat)
    requires FitsSigned(r.nextVtime) && i < RECORD_SIZE
    ensures RecordToBin(r).Ok? && |RecordToBin(r).value| == RECORD_SIZE
    ensures RecordToBin(r).value[i]
         == if i < 4 then ByteAt(r.time, i)
            else if i < 12 then ByteAt(r.key, i - 4)
            else if i < 16 then ByteAt(r.size, i - 12)
            else ByteAt(r.nextVtime, i - 16)
  {
    hide ToLittle, Pow256, ByteAt;
    Widths();
    assert SignedToWord(r.nextVtime) == r.nextVtime % TWO64;
    if i < 4 {
      MaskedBytes(4, r.time, i);
    } else if i < 12 {
      MaskedBytes(8, r.key, i - 4);
    } else if i < 16 {
      MaskedBytes(4, r.size, i - 12);
    } else {
      MaskedBytes(8, r.nextVtime, i - 16);
    }
  }

  // A file can be read exactly if it is made of whole records.
  lemma {:induction false} BinFileIff(file: seq<Byte>)
    ensures ReadBin(file).Ok? <==> |file| % RECORD_SIZE == 0
    ensures ReadBin(file).Err? ==> ReadBin(file) == Err(StructError)
    ensures ReadBin(file).Ok? ==> |ReadBin(file).value| * RECORD_SIZE == |file|
    decreases |file|
  {
    hide FromLittle;
    if file == [] {
    } else if |file| >= RECORD_SIZE {
      BinFileIff(file[RECORD_SIZE..]);
    }
  }

  lemma Layout(a: seq<Byte>, b: seq<Byte>, c: seq<Byte>, d: seq<Byte>)
    requires |a| == 4 && |b| == 8 && |c| == 4 && |d| == 8
    ensures var data := a + b + c + d;
            && |data| == RECORD_SIZE
            && data[0..4] == a && data[4..12] == b && data[12..16] == c && data[16..24] == d
  {
  }

  // The writer's loop and the reader's loop.
  function WriteBin(rs: seq<Record>): Result<seq<Byte>, CodecError> {
    if rs == [] then Ok([])
    else
      match RecordToBin(rs[0])
      case Err(e) => Err(e)
      case Ok(data) =>
        match WriteBin(rs[1..])
        case Err(e) => Err(e)
        case Ok(rest) => Ok(data + rest)
  }

  function ReadBin(file: seq<Byte>): Result<seq<Record>, CodecError> {
    if file == [] then Ok([])
    else
      match RecordFromBin(FirstN(file, RECORD_SIZE))
      case Err(e) => Err(e)
      case Ok(r) =>
        match ReadBin(file[RECORD_SIZE..])
        case Err(e) => Err(e)
        case Ok(rest) => Ok([r] + rest)
  }

  function MaskedAll(rs: seq<Record>): seq<Record> {
    if rs == [] then [] else [Masked(rs[0])] + MaskedAll(rs[1..])
  }

  predicate AllFit(rs: seq<Record>) {
    forall i :: 0 <= i < |rs| ==> FitsSigned(rs[i].nextVtime)
  }

  // How many records come before the first that cannot be packed.
  function Packable(rs: seq<Record>): (n: nat)
    ensures n <= |rs| && AllFit(rs[..n]) && (n < |rs| ==> !FitsSigned(rs[n].nextVtime))
  {
    if rs == [] || !FitsSigned(rs[0].nextVtime) then 0 else 1 + Packable(rs[1..])
  }

  // A binary file can be written exactly when every next access fits, and then reads back
  // as what was written, up to the masks.
  lemma {:induction false} BinRoundTrip(rs: seq<Record>)
    ensures WriteBin(rs).Ok? <==> AllFit(rs)
    ensures WriteBin(rs).Ok? ==> ReadBin(WriteBin(rs).value) == Ok(MaskedAll(rs))
  {
    if rs == [] {
    } else {
      BinRoundTrip(rs[1..]);
      assert forall i :: 1 <= i < |rs| ==> rs[i] == rs[1..][i - 1];
      assert forall i :: 0 <= i < |rs[1..]| ==> rs[1..][i] == rs[i + 1];
      if WriteBin(rs).Ok? {
        RecordRoundTrip(rs[0]);
        var data, rest := RecordToBin(rs[0]).value, WriteBin(rs[1..]).value;
        assert FirstN(data + rest, RECORD_SIZE) == data;
        assert (data + rest)[RECORD_SIZE..] == rest;
      }
    }
  }

  // The writer's file grows by a record at a time.
  lemma {:induction false} WriteBinAppend(rs: seq<Record>, r: Record)
    requires WriteBin(rs).Ok? && RecordToBin(r).Ok?
    ensures WriteBin(rs + [r]) == Ok(WriteBin(rs).value + RecordToBin(r).value)
  {
    hide RecordToBin;
    var data := RecordToBin(r).value;
    if rs == [] {
      assert rs + [r] == [r] && data + [] == [] + data;
    } else {
      WriteBinAppend(rs[1..], r);
      assert (rs + [r])[1..] == rs[1..] + [r];
      var first, rest := RecordToBin(rs[0]).value, WriteBin(rs[1..]).value;
      assert first + (rest + data) == (first + rest) + data;
    }
  }

  // ------------------------------------------------ decimal numbers

  predicate IsDigit(c: char) {
    '0' <= c <= '9'
  }

  function Digits(n: nat): string {
    if n < 10 then ['0' + n as char] else Digits(n / 10) + ['0' + (n % 10) as char]
  }

  // `str(n)`
  function Decimal(n: int): string {
    if n < 0 then "-" + Digits(-n) else Digits(n)
  }

  // Digits, with single underscores between them.
  function ParseDigits(s: string): Option<nat> {
    if s == "" || !IsDigit(s[|s| - 1]) then None
    else
      var d := (s[|s| - 1] - '0') as nat;
      if |s| == 1 then Some(d)
      else
        match ParseDigits(if s[|s| - 2] == '_' then s[..|s| - 2] else s[..|s| - 1])
        case None => None
        case Some(m) => Some(10 * m + d)
  }

  // `int(s)`
  function ParseInt(s: string): Result<int, CodecError> {
    var t := Strip(s);
    var negative := t != "" && t[0] == '-';
    var digits := if t != "" && t[0] in {'-', '+'} then t[1..] else t;
    match ParseDigits(digits)
    case None => Err(ValueError)
    case Some(n) =>
      Ok(if negative then 0 - n else n)
  }

  lemma {:induction false} DigitsParse(n: nat)
    ensures Digits(n) != "" && (forall i :: 0 <= i < |Digits(n)| ==> IsDigit(Digits(n)[i]))
    ensures ParseDigits(Digits(n)) == Some(n)
  {
    if n >= 10 {
      DigitsParse(n / 10);
      assert Digits(n)[..|Digits(n)| - 1] == Digits(n / 10);
    }
  }

  // The digits of a number: the k-th from the end counts the powers of ten, and the first is
  // not a zero unless it is the only one.
  lemma {:induction false} DigitsAre(n: nat, k: nat)
    requires k < |Digits(n)|
    ensures Digits(n)[|Digits(n)| - 1 - k] == '0' + (n / Pow10(k) % 10) as char
    ensures |Digits(n)| > 1 ==> Digits(n)[0] != '0'
    decreases n
  {
    if n < 10 {
    } else if k == 0 {
      DigitsAre(n / 10, |Digits(n / 10)| - 1);
    } else {
      DigitsAre(n / 10, k - 1);
      DivDiv(n, 10, Pow10(k - 1));
    }
  }

  function Pow10(n: nat): (p: nat)
    ensures p > 0
  {
    if n == 0 then 1 else 10 * Pow10(n - 1)
  }

  // A digit string: it begins and ends with digits, and between two digits stands at most one
  // underscore.
  ghost predicate DigitString(s: string) {
    && s != "" && IsDigit(s[0]) && IsDigit(s[|s| - 1])
    && (forall i :: 0 <= i < |s| ==> IsDigit(s[i]) || s[i] == '_')
    && (forall i :: 0 <= i < |s| - 1 ==> IsDigit(s[i]) || IsDigit(s[i + 1]))
  }

  lemma {:induction false} ParseDigitsIff(s: string)
    ensures ParseDigits(s).Some? <==> DigitString(s)
    decreases |s|
  {
    if s == "" || !IsDigit(s[|s| - 1]) || |s| == 1 {
    } else {
      ParseDigitsIff(if s[|s| - 2] == '_' then s[..|s| - 2] else s[..|s| - 1]);
    }
  }

  lemma NoStrip(s: string)
    requires s != "" && !IsSpace(s[0]) && !IsSpace(s[|s| - 1])
    ensures Strip(s) == s
  {
  }

  lemma DecimalParses(n: int)
    ensures ParseInt(Decimal(n)) == Ok(n)
  {
    DigitsParse(if n < 0 then -n else n);
    NoStrip(Decimal(n));
    if n < 0 {
      assert Decimal(n)[1..] == Digits(-n);
    }
  }

  // Numbers written in decimal are told apart by their text.
  lemma DecimalInjective(m: int, n: int)
    ensures Decimal(m) == Decimal(n) ==> m == n
  {
    DecimalParses(m);
    DecimalParses(n);
  }

  // ------------------------------------------------ CSV lines

  function RecordToCsv(r: Record): string {
    Decimal(r.time) + "," + Decimal(r.key) + "," + Decimal(r.size) + "," + Decimal(r.nextVtime)
  }

  // `s.split(',')`
  function Split(s: string): (fields: seq<string>)
    ensures fields != []
  {
    if s == "" then [""]
    else if s[0] == ',' then [""] + Split(s[1..])
    else
      var rest := Split(s[1..]);
      [[s[0]] + rest[0]] + rest[1..]
  }

  // Fields beyond the fourth are ignored.
  function RecordFromCsv(row: string): Result<Record, CodecError> {
    var f := Split(Strip(row));
    if |f| < 4 then Err(if exists i :: 0 <= i < |f| && ParseInt(f[i]).Err? then ValueError else IndexError)
    else
      match (ParseInt(f[0]), ParseInt(f[1]), ParseInt(f[2]), ParseInt(f[3]))
      case (Ok(t), Ok(k), Ok(s), Ok(v)) => Ok(Record(t, k, s, v))
      case _ => Err(ValueError)
  }

  // The first line of a file without its line end, and what follows it; files are read with
  // universal newlines.
  function TakeLine(text: string): (r: (string, string))
    ensures text != "" ==> |r.1| < |text|
  {
    if text == "" then ("", "")
    else if text[0] == '\n' then ("", text[1..])
    else if text[0] == '\r' then ("", if |text| > 1 && text[1] == '\n' then text[2..] else text[1..])
    else
      var (line, rest) := TakeLine(text[1..]);
      ([text[0]] + line, rest)
  }

  function WriteCsv(rs: seq<Record>): string {
    if rs == [] then "" else RecordToCsv(rs[0]) + "\n" + WriteCsv(rs[1..])
  }

  function ReadCsv(text: string): Result<seq<Record>, CodecError>
    decreases |text|
  {
    if text == "" then Ok([])
    else
      var (line, rest) := TakeLine(text);
      match RecordFromCsv(line)
      case Err(e) => Err(e)
      case Ok(r) =>
        match ReadCsv(rest)
        case Err(e) => Err(e)
        case Ok(rs) => Ok([r] + rs)
  }

  function Lines(text: string): seq<string>
    decreases |text|
  {
    if text == "" then [] else [TakeLine(text).0] + Lines(TakeLine(text).1)
  }

  ghost predicate AllRead(lines: seq<string>) {
    forall i :: 0 <= i < |lines| ==> RecordFromCsv(lines[i]).Ok?
  }

  lemma AllReadMore(line: string, more: seq<string>)
    ensures AllRead([line] + more) <==> RecordFromCsv(line).Ok? && AllRead(more)
  {
    hide RecordFromCsv;
    var all := [line] + more;
    assert all[0] == line;
    assert forall i :: 0 <= i < |more| ==> all[i + 1] == more[i];
  }

  // A file is read exactly if each of its lines is, and then line by line.
  lemma {:induction false} ReadCsvIff(text: string)
    ensures ReadCsv(text).Ok? <==> AllRead(Lines(text))
    ensures ReadCsv(text).Ok? ==>
              && |ReadCsv(text).value| == |Lines(text)|
              && forall i :: 0 <= i < |Lines(text)| ==> RecordFromCsv(Lines(text)[i]) == Ok(ReadCsv(text).value[i])
    decreases |text|
  {
    hide RecordFromCsv, TakeLine, AllRead;
    if text == "" {
      NoLines();
    } else {
      ReadCsvIff(TakeLine(text).1);
      AllReadMore(TakeLine(text).0, Lines(TakeLine(text).1));
    }
  }

  lemma NoLines()
    ensures AllRead([])
  {
  }

  // Each of the three line ends ends a line.
  lemma {:induction false} LineEnds(line: string, end: string, rest: string)
    requires forall i :: 0 <= i < |line| ==> line[i] != '\n' && line[i] != '\r'
    requires end in {"\n", "\r\n"} || (end == "\r" && !("\n" <= rest))
    ensures TakeLine(line + end + rest) == (line, rest)
  {
    var text := line + end + rest;
    if line == "" {
      assert text == end + rest;
      if end == "\r\n" {
        assert text[1] == '\n' && text[2..] == rest;
      } else {
        assert text[1..] == rest;
      }
    } else {
      LineEnds(line[1..], end, rest);
      assert [line[0]] + line[1..] == line;
      assert text[1..] == line[1..] + end + rest;
    }
  }

  lemma {:induction false} WriteCsvAppend(rs: seq<Record>, r: Record)
    ensures WriteCsv(rs + [r]) == WriteCsv(rs) + (RecordToCsv(r) + "\n")
  {
    hide RecordToCsv;
    if rs == [] {
      assert rs + [r] == [r];
    } else {
      WriteCsvAppend(rs[1..], r);
      assert (rs + [r])[1..] == rs[1..] + [r];
    }
  }

  // Characters that neither split a row nor end it.
  ghost predicate Free(s: string) {
    forall i :: 0 <= i < |s| ==> s[i] != ',' && s[i] != '\n' && s[i] != '\r' && !IsSpace(s[i])
  }

  lemma DecimalIsFree(n: int)
    ensures Free(Decimal(n)) && Decimal(n) != ""
  {
    DigitsParse(if n < 0 then -n else n);
  }

  lemma {:induction false} SplitFirst(a: string, rest: string)
    requires Free(a)
    ensures Split(a + "," + rest) == [a] + Split(rest)
  {
    if a == "" {
      assert (a + "," + rest)[1..] == rest;
    } else {
      assert Free(a[1..]);
      SplitFirst(a[1..], rest);
      assert [a[0]] + a[1..] == a;
      assert (a + "," + rest)[1..] == a[1..] + "," + rest;
    }
  }

  lemma {:induction false} SplitLast(a: string)
    requires Free(a)
    ensures Split(a) == [a]
  {
    if a == "" {
    } else {
      assert Free(a[1..]);
      SplitLast(a[1..]);
      assert [a[0]] + a[1..] == a;
    }
  }

  lemma {:induction false} TakeLineStops(line: string, rest: string)
    requires forall i :: 0 <= i < |line| ==> line[i] != '\n' && line[i] != '\r'
    ensures TakeLine(line + "\n" + rest) == (line, rest)
  {
    var text := line + "\n" + rest;
    if line == "" {
      assert text[1..] == rest;
    } else {
      TakeLineStops(line[1..], rest);
      assert [line[0]] + line[1..] == line;
      assert text[1..] == line[1..] + "\n" + rest;
    }
  }

  lemma CsvRecordRoundTrip(r: Record)
    ensures RecordFromCsv(RecordToCsv(r)) == Ok(r)
    ensures forall i :: 0 <= i < |RecordToCsv(r)| ==> RecordToCsv(r)[i] != '\n' && RecordToCsv(r)[i] != '\r'
  {
    var t, k, s, v := Decimal(r.time), Decimal(r.key), Decimal(r.size), Decimal(r.nextVtime);
    DecimalIsFree(r.time);
    DecimalIsFree(r.key);
    DecimalIsFree(r.size);
    DecimalIsFree(r.nextVtime);
    hide Decimal, ParseInt, Split, Strip, Free;
    CsvFields(t, k, s, v);
    OneLine(t, k, s, v);
    DecimalParses(r.time);
    DecimalParses(r.key);
    DecimalParses(r.size);
    DecimalParses(r.nextVtime);
  }

  // A record's line splits into the four numbers in this order.
  lemma CsvLine(r: Record)
    ensures Split(RecordToCsv(r)) == [Decimal(r.time), Decimal(r.key), Decimal(r.size), Decimal(r.nextVtime)]
  {
    DecimalIsFree(r.time);
    DecimalIsFree(r.key);
    DecimalIsFree(r.size);
    DecimalIsFree(r.nextVtime);
    hide Decimal, Split, Strip, Free;
    CsvFields(Decimal(r.time), Decimal(r.key), Decimal(r.size), Decimal(r.nextVtime));
  }

  lemma OneLine(t: string, k: string, s: string, v: string)
    requires Free(t) && Free(k) && Free(s) && Free(v)
    ensures var row := t + "," + k + "," + s + "," + v;
            forall i :: 0 <= i < |row| ==> row[i] != '\n' && row[i] != '\r'
  {
  }

  lemma CsvFields(t: string, k: string, s: string, v: string)
    requires Free(t) && Free(k) && Free(s) && Free(v) && t != "" && v != ""
    ensures var row := t + "," + k + "," + s + "," + v;
            Strip(row) == row && Split(row) == [t, k, s, v]
  {
    hide Split, Strip;
    var row := t + "," + k + "," + s + "," + v;
    assert row[0] == t[0] && row[|row| - 1] == v[|v| - 1];
    NoStrip(row);
    SplitLast(v);
    SplitFirst(s, v);
    SplitFirst(k, s + "," + v);
    SplitFirst(t, k + "," + s + "," + v);
    assert k + "," + (s + "," + v) == k + "," + s + "," + v;
    assert t + "," + (k + "," + s + "," + v) == row;
    assert [s] + [v] == [s, v] && [k] + [s, v] == [k, s, v] && [t] + [k, s, v] == [t, k, s, v];
  }

  // A CSV file reads back as exactly what was written, for all integers.
  lemma {:induction false} CsvRoundTrip(rs: seq<Record>)
    ensures ReadCsv(WriteCsv(rs)) == Ok(rs)
  {
    hide RecordToCsv, RecordFromCsv, TakeLine;
    if rs == [] {
    } else {
      CsvRoundTrip(rs[1..]);
      CsvRecordRoundTrip(rs[0]);
      TakeLineStops(RecordToCsv(rs[0]), WriteCsv(rs[1..]));
      assert [rs[0]] + rs[1..] == rs;
    }
  }
}
