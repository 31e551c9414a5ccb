/**
 Recognition of A1 and R1C1 cell references in function names, proved to accept
 exactly the spellings of cells, rows and columns of the worksheet grid.
 */
module CellReference {
  import opened Options

  const ROWS: nat := 1_048_576
  const COLUMNS: nat := 16_384
  const WORD: nat := 0x1_0000_0000

  // Decimal digits.

  const UNICODE_DECIMAL_ZEROES: seq<nat> := [
    0x0030, 0x0660, 0x06F0, 0x07C0, 0x0966, 0x09E6, 0x0A66, 0x0AE6, 0x0B66, 0x0BE6, 0x0C66, 0x0CE6,
    0x0D66, 0x0E50, 0x0ED0, 0x0F20, 0x1040, 0x1090, 0x17E0, 0x1810, 0x1946, 0x19D0, 0x1B50, 0x1BB0,
    0x1C40, 0x1C50, 0xA620, 0xA8D0, 0xA900, 0xAA50, 0xFF10, 0x104A0, 0x1D7CE, 0x1D7D8, 0x1D7E2,
    0x1D7EC, 0x1D7F6
  ]

  /** The first block of ten code points that holds `codepoint` decides its value. */
  function DigitIn(codepoint: nat, zeroes: seq<nat>): Option<nat> {
    if zeroes == [] then None
    else if zeroes[0] <= codepoint < zeroes[0] + 10 then Some(codepoint - zeroes[0])
    else DigitIn(codepoint, zeroes[1..])
  }

  function DecimalDigit(c: char): Option<nat> {
    DigitIn(c as int, UNICODE_DECIMAL_ZEROES)
  }

  predicate IsDigit(c: char) {
    DecimalDigit(c).Some?
  }

  /** Blocks that do not touch each other. */
  predicate Separated(zeroes: seq<nat>) {
    forall i, j :: 0 <= i < j < |zeroes| ==> zeroes[i] + 10 <= zeroes[j]
  }

  predicate Ascending(zeroes: seq<nat>) {
    forall i :: 0 < i < |zeroes| ==> zeroes[i - 1] + 10 <= zeroes[i]
  }

  lemma {:induction false} AscendingIsSeparated(zeroes: seq<nat>)
    requires Ascending(zeroes)
    ensures Separated(zeroes)
  {
    if |zeroes| > 1 {
      var rest := zeroes[1..];
      forall i | 0 < i < |rest| ensures rest[i - 1] + 10 <= rest[i] {
        assert zeroes[i] + 10 <= zeroes[i + 1];
      }
      AscendingIsSeparated(rest);
      assert zeroes[0] + 10 <= zeroes[1];
    }
  }

  /** With separated blocks the value does not depend on the order of the search. */
  lemma {:induction false} DigitIsUnique(codepoint: nat, zeroes: seq<nat>, d: nat)
    requires Separated(zeroes)
    ensures DigitIn(codepoint, zeroes) == Some(d) <==>
            exists i :: 0 <= i < |zeroes| && codepoint == zeroes[i] + d && d < 10
  {
    if zeroes != [] {
      DigitIsUnique(codepoint, zeroes[1..], d);
    }
  }

  lemma DigitBounds(codepoint: nat, zeroes: seq<nat>)
    ensures DigitIn(codepoint, zeroes).Some? ==> DigitIn(codepoint, zeroes).value < 10
  {
  }

  lemma TableAscends()
    ensures Ascending(UNICODE_DECIMAL_ZEROES)
    ensures |UNICODE_DECIMAL_ZEROES| > 1 && UNICODE_DECIMAL_ZEROES[0] == 0x0030 && UNICODE_DECIMAL_ZEROES[1] == 0x0660
  {
  }

  /** The table's blocks are disjoint, so each decimal digit has the one value its block gives it. */
  lemma DecimalDigitIsUnique(c: char, d: nat)
    ensures DecimalDigit(c) == Some(d) <==>
            exists i :: 0 <= i < |UNICODE_DECIMAL_ZEROES| && c as int == UNICODE_DECIMAL_ZEROES[i] + d && d < 10
  {
    TableAscends();
    AscendingIsSeparated(UNICODE_DECIMAL_ZEROES);
    DigitIsUnique(c as int, UNICODE_DECIMAL_ZEROES, d);
  }

  // Numerals.

  predicate AllDigits(text: string) {
    forall i :: 0 <= i < |text| ==> IsDigit(text[i])
  }

  /** The number a run of digits denotes, most significant digit first. */
  function Value(text: string): nat
    requires AllDigits(text)
  {
    if text == "" then 0
    else 10 * Value(text[..|text| - 1]) + DecimalDigit(text[|text| - 1]).value
  }

  lemma {:induction false} PrefixIsNoLarger(text: string, i: nat)
    requires AllDigits(text) && i <= |text|
    ensures Value(text[..i]) <= Value(text)
  {
    if i < |text| {
      PrefixIsNoLarger(text[..|text| - 1], i);
      assert text[..|text| - 1][..i] == text[..i];
    } else {
      assert text[..i] == text;
    }
  }

  /** A nonzero index within the limit, without a bound on the length of the text. */
  predicate Index(text: string, limit: nat) {
    AllDigits(text) && 1 <= Value(text) <= limit
  }

  /** Gives up at the first prefix past the limit; that never changes the answer. */
  method IsGridIndex(text: string, limit: nat) returns (r: bool)
    requires limit < WORD
    ensures r <==> Index(text, limit)
  {
    var index := 0;
    for i := 0 to |text|
      invariant AllDigits(text[..i]) && index == Value(text[..i]) && index <= limit
    {
      var digit := DecimalDigit(text[i]);
      if digit.None? {
        return false;
      }
      assert text[..i + 1][..i] == text[..i];
      var product := index * 10;
      if product >= WORD || product + digit.value >= WORD || product + digit.value > limit {
        if AllDigits(text) {
          PrefixIsNoLarger(text, i + 1);
        }
        return false;
      }
      index := product + digit.value;
    }
    assert text[..|text|] == text;
    r := index != 0;
  }

  // The decimal notation of a number, as a reference for what an index spells.

  function Decimal(n: nat): (ds: seq<nat>)
    ensures forall i :: 0 <= i < |ds| ==> ds[i] < 10
  {
    if n == 0 then [] else Decimal(n / 10) + [n % 10]
  }

  function Zeroes(k: nat): (ds: seq<nat>)
    ensures |ds| == k && forall i :: 0 <= i < k ==> ds[i] == 0
  {
    if k == 0 then [] else Zeroes(k - 1) + [0]
  }

  predicate Digits(text: string, ds: seq<nat>) {
    |text| == |ds| && forall i :: 0 <= i < |text| ==> DecimalDigit(text[i]) == Some(ds[i])
  }

  /** The text is the decimal notation of `n`, after any number of zeroes, in any scripts. */
  predicate Spells(text: string, n: nat) {
    exists k: nat :: k <= |text| && Digits(text, Zeroes(k) + Decimal(n))
  }

  lemma DecimalOfShifted(v: nat, d: nat)
    requires d < 10 && v + d > 0
    ensures Decimal(10 * v + d) == Decimal(v) + [d]
  {
    assert (10 * v + d) / 10 == v && (10 * v + d) % 10 == d;
  }

  lemma DigitsAppend(text: string, ds: seq<nat>, d: nat)
    requires text != "" && Digits(text[..|text| - 1], ds) && DecimalDigit(text[|text| - 1]) == Some(d)
    ensures Digits(text, ds + [d])
  {
  }

  lemma OneDigitMore(k: nat, v: nat, d: nat) returns (l: nat)
    requires d < 10
    ensures k <= l <= k + 1 && (Zeroes(k) + Decimal(v)) + [d] == Zeroes(l) + Decimal(10 * v + d)
  {
    if v + d > 0 {
      l := k;
      DecimalOfShifted(v, d);
    } else {
      l := k + 1;
    }
  }

  lemma {:induction false} SpellingOfValue(text: string) returns (k: nat)
    requires AllDigits(text)
    ensures k <= |text| && Digits(text, Zeroes(k) + Decimal(Value(text)))
  {
    if text == "" {
      k := 0;
    } else {
      var shorter, d := text[..|text| - 1], DecimalDigit(text[|text| - 1]).value;
      DigitBounds(text[|text| - 1] as int, UNICODE_DECIMAL_ZEROES);
      k := SpellingOfValue(shorter);
      DigitsAppend(text, Zeroes(k) + Decimal(Value(shorter)), d);
      k := OneDigitMore(k, Value(shorter), d);
    }
  }

  lemma {:induction false} ValueOfSpelling(text: string, k: nat, n: nat)
    requires Digits(text, Zeroes(k) + Decimal(n))
    ensures AllDigits(text) && Value(text) == n
  {
    var ds := Zeroes(k) + Decimal(n);
    if n > 0 {
      var shorter := Zeroes(k) + Decimal(n / 10);
      assert ds == shorter + [n % 10];
      assert Digits(text[..|text| - 1], shorter);
      ValueOfSpelling(text[..|text| - 1], k, n / 10);
    } else if k > 0 {
      assert ds == (Zeroes(k - 1) + Decimal(0)) + [0];
      ValueOfSpelling(text[..|text| - 1], k - 1, 0);
    }
  }

  /** An index is recognised exactly when it spells a number of the axis. */
  lemma IndexSpells(text: string, limit: nat)
    ensures Index(text, limit) <==> exists n :: 1 <= n <= limit && Spells(text, n)
  {
    if Index(text, limit) {
      var k := SpellingOfValue(text);
      assert Spells(text, Value(text));
    }
    forall n | 1 <= n <= limit && Spells(text, n)
      ensures Index(text, limit)
    {
      var k: nat :| k <= |text| && Digits(text, Zeroes(k) + Decimal(n));
      ValueOfSpelling(text, k, n);
    }
  }

  // Column letters.

  predicate IsLetter(c: char) {
    'A' <= c <= 'Z' || 'a' <= c <= 'z'
  }

  function Upper(c: char): char {
    if 'a' <= c <= 'z' then c - 'a' + 'A' else c
  }

  function Uppercase(text: string): (r: string)
    ensures |r| == |text| && forall i :: 0 <= i < |text| ==> r[i] == Upper(text[i])
  {
    if text == "" then "" else Uppercase(text[..|text| - 1]) + [Upper(text[|text| - 1])]
  }

  predicate AllLetters(text: string) {
    forall i :: 0 <= i < |text| ==> IsLetter(text[i])
  }

  /** The letters read as a number with digits one to twenty-six. */
  function ColumnValue(text: string): nat
    requires AllLetters(text)
  {
    if text == "" then 0
    else 26 * ColumnValue(text[..|text| - 1]) + (Upper(text[|text| - 1]) - 'A') as int + 1
  }

  /** The letters a column is written with. */
  function ColumnName(column: nat): (name: string)
    ensures forall i :: 0 <= i < |name| ==> 'A' <= name[i] <= 'Z'
  {
    if column == 0 then "" else ColumnName((column - 1) / 26) + ['A' + ((column - 1) % 26) as char]
  }

  lemma {:induction false} NameOfColumnValue(text: string)
    requires AllLetters(text)
    ensures Uppercase(text) == ColumnName(ColumnValue(text))
  {
    if text != "" {
      var shorter, d := text[..|text| - 1], (Upper(text[|text| - 1]) - 'A') as int;
      NameOfColumnValue(shorter);
      var v := ColumnValue(shorter);
      assert (26 * v + d) / 26 == v && (26 * v + d) % 26 == d;
      assert 'A' + (d as char) == Upper(text[|text| - 1]);
    }
  }

  lemma {:induction false} ValueOfColumnName(text: string, column: nat)
    requires Uppercase(text) == ColumnName(column)
    ensures AllLetters(text) && ColumnValue(text) == column
  {
    if column != 0 {
      var shorter, d := text[..|text| - 1], (column - 1) % 26;
      var name := ColumnName((column - 1) / 26);
      assert Uppercase(text) == name + ['A' + (d as char)];
      assert Uppercase(shorter) == name;
      ValueOfColumnName(shorter, (column - 1) / 26);
      var last := text[|text| - 1];
      assert Upper(last) == 'A' + (d as char);
      assert IsLetter(last);
      assert (Upper(last) - 'A') as int == d;
    }
  }

  /** Four letters are past the last column already. */
  lemma LongColumnsAreOutside(text: string)
    requires AllLetters(text) && |text| > 3
    ensures ColumnValue(text) > COLUMNS
  {
    LeastColumn(text, 4);
  }

  function Ones(k: nat): nat {
    if k == 0 then 0 else 26 * Ones(k - 1) + 1
  }

  lemma {:induction false} LeastColumn(text: string, k: nat)
    requires AllLetters(text) && k <= |text|
    ensures ColumnValue(text) >= Ones(k)
  {
    if k > 0 {
      LeastColumn(text[..|text| - 1], k - 1);
    }
  }

  lemma {:induction false} NoBlockBelow(codepoint: nat, zeroes: seq<nat>)
    requires forall i :: 0 <= i < |zeroes| ==> codepoint < zeroes[i]
    ensures DigitIn(codepoint, zeroes).None?
  {
    if zeroes != [] {
      NoBlockBelow(codepoint, zeroes[1..]);
    }
  }

  lemma LettersAreNotDigits(c: char)
    requires IsLetter(c)
    ensures !IsDigit(c)
  {
    TableAscends();
    AscendingIsSeparated(UNICODE_DECIMAL_ZEROES);
    var later := UNICODE_DECIMAL_ZEROES[1..];
    forall i | 0 <= i < |later| ensures c as int < later[i] {
      assert later[i] == UNICODE_DECIMAL_ZEROES[i + 1];
      assert i > 0 ==> UNICODE_DECIMAL_ZEROES[1] + 10 <= UNICODE_DECIMAL_ZEROES[i + 1];
    }
    NoBlockBelow(c as int, later);
  }

  // A1 references.

  predicate IsAscii(text: string) {
    forall i :: 0 <= i < |text| ==> text[i] as int < 128
  }

  function LetterPrefix(text: string): (k: nat)
    ensures k <= |text| && AllLetters(text[..k]) && (k < |text| ==> !IsLetter(text[k]))
  {
    if text == "" || !IsLetter(text[0]) then 0
    else
      var k := LetterPrefix(text[1..]);
      assert text[..k + 1] == [text[0]] + text[1..][..k];
      k + 1
  }

  /** The text is the column's letters in either case followed by the row's ASCII digits. */
  predicate SpellsCell(text: string, column: nat, row: nat) {
    exists j :: 0 <= j <= |text| && Uppercase(text[..j]) == ColumnName(column) && IsAscii(text[j..]) && Spells(text[j..], row)
  }

  predicate SpellsGridCell(text: string) {
    exists column, row :: 1 <= column <= COLUMNS && 1 <= row <= ROWS && SpellsCell(text, column, row)
  }

  lemma {:induction false} LettersEndOnce(text: string, j: nat)
    requires j < |text| && AllLetters(text[..j]) && !IsLetter(text[j])
    ensures j == LetterPrefix(text)
  {
    if j > 0 {
      assert text[..j][0] == text[0];
      assert text[1..][..j - 1] == text[..j][1..];
      LettersEndOnce(text[1..], j - 1);
    }
  }

  lemma CellSplitsAfterItsLetters(text: string, j: nat)
    requires j < |text| && AllLetters(text[..j]) && AllDigits(text[j..])
    ensures j == LetterPrefix(text)
  {
    assert IsDigit(text[j..][0]);
    if IsLetter(text[j]) {
      LettersAreNotDigits(text[j]);
    }
    LettersEndOnce(text, j);
  }

  lemma SplitOfSpelling(text: string, column: nat, row: nat)
    requires 1 <= column <= COLUMNS && 1 <= row <= ROWS && SpellsCell(text, column, row)
    ensures var k := LetterPrefix(text);
            0 < k <= 3 && ColumnValue(text[..k]) <= COLUMNS && IsAscii(text[k..]) && Index(text[k..], ROWS)
  {
    var j :| 0 <= j <= |text| && Uppercase(text[..j]) == ColumnName(column) && IsAscii(text[j..]) && Spells(text[j..], row);
    ValueOfColumnName(text[..j], column);
    IndexSpells(text[j..], ROWS);
    CellSplitsAfterItsLetters(text, j);
    if j > 3 {
      LongColumnsAreOutside(text[..j]);
    }
  }

  lemma SpellingOfSplit(text: string)
    requires var k := LetterPrefix(text);
             0 < k && ColumnValue(text[..k]) <= COLUMNS && IsAscii(text[k..]) && Index(text[k..], ROWS)
    ensures SpellsGridCell(text)
  {
    var k := LetterPrefix(text);
    NameOfColumnValue(text[..k]);
    IndexSpells(text[k..], ROWS);
    var row :| 1 <= row <= ROWS && Spells(text[k..], row);
    LeastColumn(text[..k], 1);
    assert SpellsCell(text, ColumnValue(text[..k]), row);
  }

  /** A1 recognition holds exactly for the spellings of grid cells. */
  method IsA1Reference(name: string) returns (r: bool)
    ensures r <==> SpellsGridCell(name)
  {
    forall column, row | 1 <= column <= COLUMNS && 1 <= row <= ROWS && SpellsCell(name, column, row)
      ensures var k := LetterPrefix(name);
              0 < k <= 3 && ColumnValue(name[..k]) <= COLUMNS && IsAscii(name[k..]) && Index(name[k..], ROWS)
    {
      SplitOfSpelling(name, column, row);
    }
    var columnEnd := LetterPrefix(name);
    if columnEnd == 0 || columnEnd > 3 {
      return false;
    }
    var column := ColumnValue(name[..columnEnd]);
    if column > COLUMNS || !IsAscii(name[columnEnd..]) {
      return false;
    }
    r := IsGridIndex(name[columnEnd..], ROWS);
    if r {
      SpellingOfSplit(name);
    }
  }

  // R1C1 references.

  function DigitPrefix(text: string): (k: nat)
    ensures k <= |text| && AllDigits(text[..k]) && (k < |text| ==> !IsDigit(text[k]))
  {
    if text == "" || !IsDigit(text[0]) then 0
    else
      var k := DigitPrefix(text[1..]);
      assert text[..k + 1] == [text[0]] + text[1..][..k];
      k + 1
  }

  lemma {:induction false} DigitsEndOnce(text: string, j: nat)
    requires j <= |text| && AllDigits(text[..j]) && (j < |text| ==> !IsDigit(text[j]))
    ensures j == DigitPrefix(text)
  {
    if j > 0 {
      assert text[..j][0] == text[0];
      assert text[1..][..j - 1] == text[..j][1..];
      DigitsEndOnce(text[1..], j - 1);
    }
  }

  /** The text spells a row or column number of the axis. */
  predicate OnAxis(text: string, limit: nat) {
    exists n :: 1 <= n <= limit && Spells(text, n)
  }

  /** A whole row or a whole column. */
  predicate SpellsLine(name: string) {
    && name != ""
    && ((Upper(name[0]) == 'R' && OnAxis(name[1..], ROWS)) || (Upper(name[0]) == 'C' && OnAxis(name[1..], COLUMNS)))
  }

  /**
   Row then column around position `k`, either number omitted for the current one; or column then row, both numbers
   present.
   */
  predicate SpellsCrossing(name: string, k: nat)
    requires 1 <= k < |name|
  {
    var first, second := name[1..k], name[k + 1..];
    || (&& Upper(name[0]) == 'R' && Upper(name[k]) == 'C'
        && (first == "" || OnAxis(first, ROWS)) && (second == "" || OnAxis(second, COLUMNS)))
    || (&& Upper(name[0]) == 'C' && Upper(name[k]) == 'R' && OnAxis(first, COLUMNS) && OnAxis(second, ROWS))
  }

  predicate SpellsR1C1(name: string) {
    SpellsLine(name) || exists k :: 1 <= k < |name| && SpellsCrossing(name, k)
  }

  lemma AxesAreIndices()
    ensures forall text, limit :: OnAxis(text, limit) <==> Index(text, limit)
  {
    forall text, limit ensures OnAxis(text, limit) <==> Index(text, limit) {
      IndexSpells(text, limit);
    }
  }

  lemma CrossingSplitsAfterItsDigits(name: string, k: nat)
    requires 1 <= k < |name| && SpellsCrossing(name, k)
    ensures k == 1 + DigitPrefix(name[1..])
  {
    IndexSpells(name[1..k], ROWS);
    IndexSpells(name[1..k], COLUMNS);
    LettersAreNotDigits(name[k]);
    assert name[1..][..k - 1] == name[1..k];
    DigitsEndOnce(name[1..], k - 1);
  }

  lemma LinesHaveOnlyDigits(name: string)
    requires SpellsLine(name)
    ensures 1 + DigitPrefix(name[1..]) == |name|
  {
    IndexSpells(name[1..], ROWS);
    IndexSpells(name[1..], COLUMNS);
    assert name[1..][..|name| - 1] == name[1..];
    DigitsEndOnce(name[1..], |name| - 1);
  }

  /** What the recogniser decides once it has found the end of the first number. */
  lemma DecidedAtTheFirstLetter(name: string)
    requires name != ""
    ensures var d := 1 + DigitPrefix(name[1..]);
            SpellsR1C1(name) <==> if d == |name| then SpellsLine(name) else SpellsCrossing(name, d)
  {
    var d := 1 + DigitPrefix(name[1..]);
    if SpellsLine(name) {
      LinesHaveOnlyDigits(name);
    }
    forall k | 1 <= k < |name| && SpellsCrossing(name, k)
      ensures k == d
    {
      CrossingSplitsAfterItsDigits(name, k);
    }
  }

  /** R1C1 recognition holds exactly for the in-grid absolute forms and the permitted relative ones. */
  method IsR1C1Reference(name: string) returns (r: bool)
    ensures r <==> SpellsR1C1(name)
  {
    if name == "" {
      return false;
    }
    DecidedAtTheFirstLetter(name);
    AxesAreIndices();
    var firstLimit, secondAxis, secondLimit := ROWS, 'C', COLUMNS;
    if Upper(name[0]) == 'C' {
      firstLimit, secondAxis, secondLimit := COLUMNS, 'R', ROWS;
    } else if Upper(name[0]) != 'R' {
      return false;
    }
    var firstEnd := 1 + DigitPrefix(name[1..]);
    var first := IsGridIndex(name[1..firstEnd], firstLimit);
    if firstEnd == |name| {
      assert name[1..firstEnd] == name[1..];
      return first;
    }
    if Upper(name[firstEnd]) != secondAxis {
      return false;
    }
    var second := IsGridIndex(name[firstEnd + 1..], secondLimit);
    var relativeAllowed := Upper(name[0]) == 'R';
    r := (first || (relativeAllowed && name[1..firstEnd] == "")) && (second || (relativeAllowed && name[firstEnd + 1..] == ""));
  }

  // Where the grid ends.

  /** Of the ASCII characters exactly the ten digits are decimal digits, with their own values. */
  lemma AsciiDigits(c: char)
    requires c as int < 128
    ensures DecimalDigit(c) == if '0' <= c <= '9' then Some(c as int - '0' as int) else None
  {
    TableAscends();
    AscendingIsSeparated(UNICODE_DECIMAL_ZEROES);
    var later := UNICODE_DECIMAL_ZEROES[1..];
    forall i | 0 <= i < |later| ensures c as int < later[i] {
      assert later[i] == UNICODE_DECIMAL_ZEROES[i + 1];
      assert i > 0 ==> UNICODE_DECIMAL_ZEROES[1] + 10 <= UNICODE_DECIMAL_ZEROES[i + 1];
    }
    NoBlockBelow(c as int, later);
  }

  lemma LastColumn()
    ensures ColumnName(COLUMNS) == "XFD" && ColumnName(COLUMNS + 1) == "XFE" && ColumnName(1) == "A"
  {
    assert ColumnName(24) == "X";
    assert ColumnName(630) == "XF";
  }

  function Number(ds: seq<nat>): nat {
    if ds == [] then 0 else 10 * Number(ds[..|ds| - 1]) + ds[|ds| - 1]
  }

  lemma OneMoreDigit(ds: seq<nat>, d: nat)
    ensures Number(ds + [d]) == 10 * Number(ds) + d
  {
    assert (ds + [d])[..|ds|] == ds;
  }

  lemma {:induction false} Reads(text: string, ds: seq<nat>)
    requires |text| == |ds|
    requires forall i :: 0 <= i < |text| ==> '0' <= text[i] <= '9' && text[i] as int - '0' as int == ds[i]
    ensures AllDigits(text) && Value(text) == Number(ds)
  {
    if text != "" {
      Reads(text[..|text| - 1], ds[..|ds| - 1]);
      AsciiDigits(text[|text| - 1]);
    }
  }

  /** Of the texts made of decimal digits, the ASCII ones are those written with 0 to 9. */
  lemma AsciiRows(text: string)
    requires AllDigits(text)
    ensures IsAscii(text) <==> forall i :: 0 <= i < |text| ==> '0' <= text[i] <= '9'
  {
    if IsAscii(text) {
      forall i | 0 <= i < |text| ensures '0' <= text[i] <= '9' {
        AsciiDigits(text[i]);
      }
    }
  }

  /** 16384 and the numbers that begin it. */
  lemma NumberOfTheLastColumn(d: nat)
    ensures Number([1, 6, 3, 8, d]) == 16380 + d
  {
    OneMoreDigit([], 1);
    OneMoreDigit([1], 6);
    OneMoreDigit([1, 6], 3);
    OneMoreDigit([1, 6, 3], 8);
    OneMoreDigit([1, 6, 3, 8], d);
    assert [] + [1] == [1] && [1] + [6] == [1, 6] && [1, 6] + [3] == [1, 6, 3] && [1, 6, 3] + [8] == [1, 6, 3, 8];
    assert [1, 6, 3, 8] + [d] == [1, 6, 3, 8, d];
  }

  lemma NumberOfTheLastRow(d: nat)
    ensures Number([1, 0, 4, 8, 5, 7, d]) == 1048570 + d
  {
    OneMoreDigit([], 1);
    OneMoreDigit([1], 0);
    OneMoreDigit([1, 0], 4);
    OneMoreDigit([1, 0, 4], 8);
    OneMoreDigit([1, 0, 4, 8], 5);
    OneMoreDigit([1, 0, 4, 8, 5], 7);
    OneMoreDigit([1, 0, 4, 8, 5, 7], d);
    assert [] + [1] == [1] && [1] + [0] == [1, 0] && [1, 0] + [4] == [1, 0, 4] && [1, 0, 4] + [8] == [1, 0, 4, 8];
    assert [1, 0, 4, 8] + [5] == [1, 0, 4, 8, 5] && [1, 0, 4, 8, 5] + [7] == [1, 0, 4, 8, 5, 7];
    assert [1, 0, 4, 8, 5, 7] + [d] == [1, 0, 4, 8, 5, 7, d];
  }

  /** Rows run from 1 to 1048576. */
  lemma LastRow()
    ensures Index("1048576", ROWS) && !Index("1048577", ROWS)
  {
    Reads("1048576", [1, 0, 4, 8, 5, 7, 6]);
    NumberOfTheLastRow(6);
    Reads("1048577", [1, 0, 4, 8, 5, 7, 7]);
    NumberOfTheLastRow(7);
  }

  /** In numbers, columns run from 1 to 16384. */
  lemma LastColumnNumber()
    ensures Index("16384", COLUMNS) && !Index("16385", COLUMNS)
  {
    Reads("16384", [1, 6, 3, 8, 4]);
    NumberOfTheLastColumn(4);
    Reads("16385", [1, 6, 3, 8, 5]);
    NumberOfTheLastColumn(5);
  }

  /** Neither begins at zero, and an index has at least one digit. */
  lemma NoZeroIndex(limit: nat)
    ensures !Index("0", limit) && !Index("", limit)
  {
    Reads("0", [0]);
    OneMoreDigit([], 0);
  }
}
