/**
 * The mnemonic hook of the date-remembering page: a date part (day, month or
 * year, as typed) is cut into two-digit chunks, each chunk is looked up in a
 * word map, the options are combined, and a per-part word index cycles
 * through them.
 */
module Mnemonic {
  import opened Common

  type WordMap = map<string, seq<string>>

  /** Concatenation of a list of lists (`.flat()`, and `join("")` of strings). */
  function Concat<T>(xss: seq<seq<T>>): seq<T> {
    if xss == [] then [] else xss[0] + Concat(xss[1..])
  }

  lemma {:induction false} ConcatAppend<T>(xss: seq<seq<T>>, yss: seq<seq<T>>)
    ensures Concat(xss + yss) == Concat(xss) + Concat(yss)
  {
    if xss == [] {
      assert xss + yss == yss;
    } else {
      assert (xss + yss)[0] == xss[0];
      assert (xss + yss)[1..] == xss[1..] + yss;
      ConcatAppend(xss[1..], yss);
    }
  }

  // ---------------------------------------------------------------------------
  // Chunking.
  // ---------------------------------------------------------------------------

  /** The end of chunk `k`: `slice` clamps it to the string's length. */
  function ChunkEnd(s: string, k: nat): nat {
    if 2 * k + 2 <= |s| then 2 * k + 2 else |s|
  }

  /** The chunks of `s`: consecutive slices of two characters, the last possibly of one. */
  function Chunks(s: string): seq<string>
    decreases |s|
  {
    if s == [] then []
    else if |s| <= 2 then [s]
    else [s[..2]] + Chunks(s[2..])
  }

  /**
   * There are `ceil(|s| / 2)` chunks; chunk `k` is `s[2k .. 2k+2]` clamped to
   * the end; every chunk but the last has two characters, the last at least
   * one; joined back together they give `s`.
   */
  lemma {:induction false} ChunksSpec(s: string)
    ensures |Chunks(s)| == (|s| + 1) / 2
    ensures forall k :: 0 <= k < |Chunks(s)| ==> 2 * k < |s| && Chunks(s)[k] == s[2 * k..ChunkEnd(s, k)]
    ensures forall k :: 0 <= k < |Chunks(s)| - 1 ==> |Chunks(s)[k]| == 2
    ensures forall k :: 0 <= k < |Chunks(s)| ==> 1 <= |Chunks(s)[k]| <= 2
    ensures Concat(Chunks(s)) == s
  {
    ChunksCount(s);
    ChunksAt(s);
    ChunksConcat(s);
  }

  lemma {:induction false} ChunksCount(s: string)
    decreases |s|
    ensures |Chunks(s)| == (|s| + 1) / 2
  {
    if |s| > 2 {
      ChunksCount(s[2..]);
    }
  }

  lemma {:induction false} ChunksAt(s: string)
    decreases |s|
    ensures forall k :: 0 <= k < |Chunks(s)| ==> 2 * k < |s| && Chunks(s)[k] == s[2 * k..ChunkEnd(s, k)]
  {
    if |s| > 2 {
      var rest := s[2..];
      ChunksAt(rest);
      var c := Chunks(s);
      assert c == [s[..2]] + Chunks(rest);
      forall k | 1 <= k < |c|
        ensures 2 * k < |s| && c[k] == s[2 * k..ChunkEnd(s, k)]
      {
        assert c[k] == Chunks(rest)[k - 1];
        assert ChunkEnd(rest, k - 1) + 2 == ChunkEnd(s, k);
        assert rest[2 * (k - 1)..ChunkEnd(rest, k - 1)] == s[2 * k..ChunkEnd(s, k)];
      }
      assert c[0] == s[0..ChunkEnd(s, 0)];
    }
  }

  lemma {:induction false} ChunksConcat(s: string)
    decreases |s|
    ensures Concat(Chunks(s)) == s
  {
    if |s| > 2 {
      var rest := s[2..];
      ChunksConcat(rest);
      var c := Chunks(s);
      assert c == [s[..2]] + Chunks(rest);
      assert c[0] == s[..2] && c[1..] == Chunks(rest);
      assert s == s[..2] + rest;
    } else if s != [] {
      assert Concat([s]) == s + Concat<char>([]);
    }
  }

  /** `splitIntoChunks`: the loop stepping two characters at a time. */
  method SplitIntoChunks(str: string) returns (chunks: seq<string>)
    ensures chunks == Chunks(str)
  {
    ChunksCount(str);
    ChunksAt(str);
    var chunkSize := 2;
    chunks := [];
    var i := 0;
    while i < |str|
      invariant i == 2 * |chunks| && i <= |str| + 1
      invariant |chunks| <= |Chunks(str)|
      invariant chunks == Chunks(str)[..|chunks|]
    {
      var end := if i + chunkSize <= |str| then i + chunkSize else |str|;
      assert end == ChunkEnd(str, |chunks|);
      chunks := chunks + [str[i..end]];
      i := i + chunkSize;
    }
  }

  /** `value.padStart(...)`: one `'0'` in front of an odd-length value. */
  function PadToEven(v: string): string {
    if |v| % 2 == 1 then "0" + v else v
  }

  /** `paddingChunkedValues`. */
  function PaddedChunks(v: string): seq<string> {
    Chunks(PadToEven(v))
  }

  /**
   * Padding adds exactly one `'0'` in front exactly when the length is odd, and
   * then every chunk has two characters.
   */
  lemma PaddedChunksSpec(v: string)
    ensures |PadToEven(v)| % 2 == 0
    ensures PadToEven(v) == v <==> |v| % 2 == 0
    ensures |v| % 2 == 1 ==> PadToEven(v) == ['0'] + v
    ensures Concat(PaddedChunks(v)) == PadToEven(v)
    ensures |PaddedChunks(v)| == (|v| + 1) / 2
    ensures forall k :: 0 <= k < |PaddedChunks(v)| ==> |PaddedChunks(v)[k]| == 2
  {
    var p := PadToEven(v);
    ChunksCount(p);
    ChunksAt(p);
    ChunksConcat(p);
    if |v| % 2 == 1 {
      assert |p| == |v| + 1;
      assert (|v| + 2) / 2 == (|v| + 1) / 2;
      assert p != v;
    }
    assert |p| % 2 == 0;
    forall k | 0 <= k < |Chunks(p)|
      ensures |Chunks(p)[k]| == 2
    {
      assert 2 * k + 2 <= |p|;
    }
  }

  lemma PaddedChunksExamples()
    ensures PaddedChunks("123") == ["01", "23"]
    ensures PaddedChunks("1234") == ["12", "34"]
    ensures PaddedChunks("12345") == ["01", "23", "45"]
  {
    assert PadToEven("123") == "0123" && PadToEven("1234") == "1234" && PadToEven("12345") == "012345";
    assert "0123"[..2] == "01" && "0123"[2..] == "23";
    assert Chunks("0123") == ["01"] + Chunks("23");
    assert "1234"[..2] == "12" && "1234"[2..] == "34";
    assert Chunks("1234") == ["12"] + Chunks("34");
    assert "012345"[..2] == "01" && "012345"[2..] == "2345";
    assert "2345"[..2] == "23" && "2345"[2..] == "45";
    assert Chunks("2345") == ["23"] + Chunks("45");
    assert Chunks("012345") == ["01"] + Chunks("2345");
  }

  // ---------------------------------------------------------------------------
  // `Number.parseInt` with no radix.
  // ---------------------------------------------------------------------------

  /** The longest prefix of `s` made of decimal digits. */
  function DigitPrefix(s: string): (r: string)
    ensures |r| <= |s| && AllDigits(r)
    ensures r == s[..|r|]
    ensures |r| < |s| ==> !IsDigit(s[|r|])
  {
    if s != [] && IsDigit(s[0]) then [s[0]] + DigitPrefix(s[1..]) else []
  }

  predicate IsHexDigit(c: char) {
    IsDigit(c) || 'a' <= c <= 'f' || 'A' <= c <= 'F'
  }

  function HexDigitValue(c: char): nat
    requires IsHexDigit(c)
  {
    if IsDigit(c) then DigitValue(c)
    else if 'a' <= c <= 'f' then c as int - 'a' as int + 10
    else c as int - 'A' as int + 10
  }

  function HexPrefix(s: string): (r: string)
    ensures |r| <= |s| && forall i :: 0 <= i < |r| ==> IsHexDigit(r[i])
  {
    if s != [] && IsHexDigit(s[0]) then [s[0]] + HexPrefix(s[1..]) else []
  }

  function HexValue(s: string): nat
    requires forall i :: 0 <= i < |s| ==> IsHexDigit(s[i])
  {
    if s == [] then 0 else HexValue(s[..|s| - 1]) * 16 + HexDigitValue(s[|s| - 1])
  }

  /** `0x`/`0X` followed by hex digits, otherwise the decimal digits at the front; None when there are none. */
  function ParseMagnitude(u: string): Option<nat> {
    if |u| >= 2 && u[0] == '0' && (u[1] == 'x' || u[1] == 'X') then
      var digits := HexPrefix(u[2..]);
      if digits == [] then None else Some(HexValue(digits))
    else
      var digits := DigitPrefix(u);
      if digits == [] then None else Some(DigitsValue(digits))
  }

  function Negated(m: Option<nat>): Option<int> {
    match m
    case None => None
    case Some(v) =>
      Some(0 - v as int)
  }

  /**
   * `Number.parseInt(s)`: leading whitespace skipped, an optional sign, a `0x`
   * prefix switching to hexadecimal, then the longest run of digits; None (NaN)
   * when there is no digit.
   */
  function ParseInt(s: string): Option<int> {
    var t := TrimStart(s);
    if t != [] && t[0] == '-' then Negated(ParseMagnitude(t[1..]))
    else if t != [] && t[0] == '+' then
      match ParseMagnitude(t[1..])
      case None => None
      case Some(v) => Some(v)
    else
      match ParseMagnitude(t)
      case None => None
      case Some(v) => Some(v)
  }

  /** Every character of a digit string belongs to its digit prefix. */
  lemma {:induction false} DigitPrefixOfDigits(s: string)
    requires AllDigits(s)
    ensures DigitPrefix(s) == s
  {
    if s != [] {
      DigitPrefixOfDigits(s[1..]);
      assert s == [s[0]] + s[1..];
    }
  }

  /** A digit string without a leading zero parses to its decimal value. */
  lemma DigitStringParses(s: string)
    requires s != [] && AllDigits(s) && s[0] != '0'
    ensures ParseInt(s) == Some(DigitsValue(s))
  {
    TrimStartNoSpace(s);
    DigitPrefixOfDigits(s);
    assert ParseMagnitude(s) == Some(DigitsValue(s));
  }

  lemma ParseIntExamples()
    ensures ParseInt("ab") == None
    ensures ParseInt("-7x") == Some(-7)
    ensures ParseInt("0x") == None
  {
    ParseLetters();
    ParseNegativePrefix();
    ParseBareHexPrefix();
  }

  lemma ParseLetters()
    ensures ParseInt("ab") == None
  {
    TrimStartNoSpace("ab");
    assert DigitPrefix("ab") == [];
  }

  lemma ParseNegativePrefix()
    ensures ParseInt("-7x") == Some(-7)
  {
    TrimStartNoSpace("-7x");
    assert "-7x"[1..] == "7x" && "7x"[1..] == "x";
    assert DigitPrefix("x") == [];
    assert DigitPrefix("7x") == "7";
    assert "7"[..0] == [];
    assert ParseMagnitude("7x") == Some(7);
  }

  lemma ParseBareHexPrefix()
    ensures ParseInt("0x") == None
  {
    TrimStartNoSpace("0x");
    assert "0x"[2..] == [];
    assert HexPrefix([]) == [];
  }

  /** At most two characters hold at most two digits, and so a magnitude below 100. */
  lemma ShortMagnitude(u: string)
    requires |u| <= 2
    ensures ParseMagnitude(u).None? || ParseMagnitude(u).value < 100
  {
    if |u| >= 2 && u[0] == '0' && (u[1] == 'x' || u[1] == 'X') {
      assert u[2..] == [];
    } else {
      var d := DigitPrefix(u);
      assert ParseMagnitude(u) == if d == [] then None else Some(DigitsValue(d));
      if |d| == 2 {
        TwoDigitsValue(d);
      } else if |d| == 1 {
        assert d[..0] == [];
        assert DigitsValue(d) == DigitValue(d[0]);
      }
    }
  }

  /** Two characters never parse to 1000 or more. */
  lemma ShortParseIntBelowThousand(s: string)
    requires |s| <= 2
    ensures ParseInt(s).None? || ParseInt(s).value < 1000
  {
    var t := TrimStart(s);
    if t != [] {
      ShortMagnitude(t[1..]);
    }
    ShortMagnitude(t);
  }

  // ---------------------------------------------------------------------------
  // Word options.
  // ---------------------------------------------------------------------------

  /**
   * `wordMap[Number(chunk)]` for a chunk of the large-number branch: a digit
   * chunk is looked up by its canonical decimal key; any other chunk, and a
   * missing key, contribute nothing.
   */
  function ChunkWords(wordMap: WordMap, chunk: string): seq<string> {
    if chunk != [] && AllDigits(chunk) && NatToString(DigitsValue(chunk)) in wordMap
    then wordMap[NatToString(DigitsValue(chunk))]
    else []
  }

  /** `chunks.flatMap((chunk) => wordMap[Number(chunk)])`. */
  function ChunkedWords(wordMap: WordMap, chunks: seq<string>): seq<string> {
    Concat(seq(|chunks|, k requires 0 <= k < |chunks| => ChunkWords(wordMap, chunks[k])))
  }

  /** `getWordOptions`. */
  function WordOptions(wordMap: WordMap, num: string): seq<string> {
    if num in wordMap then wordMap[num]
    else
      match ParseInt(num)
      case Some(n) =>
        if n >= 1000 then
          ChunkedWords(wordMap, PaddedChunks(num))
        else []
      case None => []
  }

  /** A key of the map gives its own list; for one or two characters a miss gives nothing. */
  lemma ShortWordOptions(wordMap: WordMap, num: string)
    ensures num in wordMap ==> WordOptions(wordMap, num) == wordMap[num]
    ensures |num| <= 2 && num !in wordMap ==> WordOptions(wordMap, num) == []
  {
    if |num| <= 2 {
      ShortParseIntBelowThousand(num);
    }
  }

  /** A four-digit miss is looked up as two padded two-digit chunks, with leading zeros dropped. */
  lemma LongWordOptionsExample(wordMap: WordMap)
    requires "1905" !in wordMap && "19" in wordMap && "5" in wordMap
    ensures WordOptions(wordMap, "1905") == wordMap["19"] + wordMap["5"]
  {
    FourDigitChunks();
    LongWordOptions(wordMap, "1905");
    TwoChunkedWords(wordMap, "19", "05");
    ChunkWordsExample(wordMap);
  }

  /** A miss that parses to 1000 or more takes the words of its padded chunks. */
  lemma LongWordOptions(wordMap: WordMap, num: string)
    requires num !in wordMap && ParseInt(num).Some? && ParseInt(num).value >= 1000
    ensures WordOptions(wordMap, num) == ChunkedWords(wordMap, PaddedChunks(num))
  {
  }

  lemma TwoChunkedWords(wordMap: WordMap, x: string, y: string)
    ensures ChunkedWords(wordMap, [x, y]) == ChunkWords(wordMap, x) + ChunkWords(wordMap, y)
  {
    var parts := seq(2, k requires 0 <= k < 2 => ChunkWords(wordMap, [x, y][k]));
    assert parts == [ChunkWords(wordMap, x), ChunkWords(wordMap, y)];
    assert Concat(parts) == ChunkWords(wordMap, x) + Concat(parts[1..]);
    assert Concat(parts[1..]) == ChunkWords(wordMap, y) + Concat<string>([]);
  }

  lemma FourDigitChunks()
    ensures ParseInt("1905") == Some(1905)
    ensures PaddedChunks("1905") == ["19", "05"]
  {
    FourDigitValue();
    DigitStringParses("1905");
    FourDigitSplit();
  }

  lemma FourDigitSplit()
    ensures PaddedChunks("1905") == ["19", "05"]
  {
    assert PadToEven("1905") == "1905";
    assert "1905"[..2] == "19" && "1905"[2..] == "05";
    assert Chunks("1905") == ["19"] + Chunks("05");
  }

  lemma FourDigitValue()
    ensures DigitsValue("1905") == 1905
  {
    assert "1905"[..3] == "190" && "190"[..2] == "19" && "19"[..1] == "1" && "1"[..0] == [];
  }

  lemma ChunkWordsExample(wordMap: WordMap)
    requires "19" in wordMap && "5" in wordMap
    ensures ChunkWords(wordMap, "19") == wordMap["19"] && ChunkWords(wordMap, "05") == wordMap["5"]
  {
    assert "05"[..1] == "0" && "0"[..0] == [] && "19"[..1] == "1" && "1"[..0] == [];
    assert DigitsValue("19") == 19 && DigitsValue("05") == 5;
    assert NatToString(19) == "19" && NatToString(5) == "5";
  }

  /** `splitAndGetWordOptions`. */
  function SplitAndGetWordOptions(wordMap: WordMap, number: Option<string>): seq<seq<string>> {
    if Blank(number) then []
    else
      var chunks := Chunks(number.value);
      seq(|chunks|, k requires 0 <= k < |chunks| => WordOptions(wordMap, chunks[k]))
  }

  /**
   * No options for a blank value; otherwise one option list per chunk, in
   * order, each the map's entry for that chunk or nothing.
   */
  lemma SplitAndGetWordOptionsSpec(wordMap: WordMap, number: Option<string>)
    ensures Blank(number) ==> SplitAndGetWordOptions(wordMap, number) == []
    ensures !Blank(number) ==>
              |SplitAndGetWordOptions(wordMap, number)| == (|number.value| + 1) / 2
              && forall k :: 0 <= k < |SplitAndGetWordOptions(wordMap, number)| ==>
                   var chunk := Chunks(number.value)[k];
                   SplitAndGetWordOptions(wordMap, number)[k] == if chunk in wordMap then wordMap[chunk] else []
  {
    if !Blank(number) {
      ChunksSpec(number.value);
      var chunks := Chunks(number.value);
      forall k | 0 <= k < |chunks|
        ensures WordOptions(wordMap, chunks[k]) == if chunks[k] in wordMap then wordMap[chunks[k]] else []
      {
        ShortWordOptions(wordMap, chunks[k]);
      }
    }
  }

  // ---------------------------------------------------------------------------
  // Enumerating the words.
  // ---------------------------------------------------------------------------

  /** `first.flatMap((a) => second.map((b) => `${a} ${b}`))`. */
  function Combinations(first: seq<string>, second: seq<string>): seq<string> {
    if first == [] then []
    else seq(|second|, j requires 0 <= j < |second| => first[0] + " " + second[j]) + Combinations(first[1..], second)
  }

  lemma {:induction false} CombinationsLength(first: seq<string>, second: seq<string>)
    ensures |Combinations(first, second)| == |first| * |second|
  {
    if first != [] {
      CombinationsLength(first[1..], second);
      assert |first| * |second| == |second| + (|first| - 1) * |second|;
    }
  }

  /** Row-major order: entry `i * |B| + j` of the `|A| * |B|` combinations pairs `A[i]` with `B[j]`. */
  lemma {:induction false} CombinationsAt(first: seq<string>, second: seq<string>, i: nat, j: nat)
    requires i < |first| && j < |second|
    ensures |Combinations(first, second)| == |first| * |second|
    ensures 0 <= i * |second| + j < |Combinations(first, second)|
    ensures Combinations(first, second)[i * |second| + j] == first[i] + " " + second[j]
  {
    CombinationsLength(first, second);
    var n := |second|;
    var row := seq(n, j requires 0 <= j < n => first[0] + " " + second[j]);
    var rest := Combinations(first[1..], second);
    assert Combinations(first, second) == row + rest;
    if i > 0 {
      CombinationsAt(first[1..], second, i - 1, j);
      assert i * n == (i - 1) * n + n;
      assert first[1..][i - 1] == first[i];
    }
  }

  /** The list a word index points into: the two-chunk product, or all options in chunk order. */
  function WordList(wordMap: WordMap, number: Option<string>): seq<string> {
    var chunkOptions := SplitAndGetWordOptions(wordMap, number);
    if |chunkOptions| == 2 then Combinations(chunkOptions[0], chunkOptions[1]) else Concat(chunkOptions)
  }

  /** A word index; NaN is what `% 0` leaves behind. */
  datatype WordIndex = Index(i: int) | NaN

  /** `getWords`: the word at the index, None for `undefined` (out of range or NaN). */
  function GetWords(wordMap: WordMap, number: Option<string>, wordIndex: WordIndex): Option<string> {
    var words := WordList(wordMap, number);
    match wordIndex
    case Index(i) => if 0 <= i < |words| then Some(words[i]) else None
    case NaN => None
  }

  /** The count `cycleWord` computes. */
  function TotalCombinations(wordMap: WordMap, number: Option<string>): nat {
    var chunkOptions := SplitAndGetWordOptions(wordMap, number);
    if |chunkOptions| == 2 then
      var rows, columns := |chunkOptions[0]|, |chunkOptions[1]|;
      ProductNonNegative(rows, columns);
      rows * columns
    else |Concat(chunkOptions)|
  }

  lemma ProductNonNegative(a: nat, b: nat)
    ensures a * b >= 0
  {
  }

  /** Cycling counts exactly the words `getWords` enumerates, so every index below it names a word. */
  lemma TotalMatchesWordList(wordMap: WordMap, number: Option<string>)
    ensures TotalCombinations(wordMap, number) == |WordList(wordMap, number)|
    ensures forall i :: 0 <= i < TotalCombinations(wordMap, number) ==>
              GetWords(wordMap, number, Index(i)) == Some(WordList(wordMap, number)[i])
  {
    var chunkOptions := SplitAndGetWordOptions(wordMap, number);
    if |chunkOptions| == 2 {
      CombinationsLength(chunkOptions[0], chunkOptions[1]);
    }
  }

  /** A two-chunk value: word `i * |B| + j` is option `i` of the first chunk, a space, option `j` of the second. */
  lemma TwoChunkWords(wordMap: WordMap, number: Option<string>, i: nat, j: nat)
    requires |SplitAndGetWordOptions(wordMap, number)| == 2
    requires i < |SplitAndGetWordOptions(wordMap, number)[0]| && j < |SplitAndGetWordOptions(wordMap, number)[1]|
    ensures var opts := SplitAndGetWordOptions(wordMap, number);
            GetWords(wordMap, number, Index(i * |opts[1]| + j)) == Some(opts[0][i] + " " + opts[1][j])
  {
    var opts := SplitAndGetWordOptions(wordMap, number);
    WordListOfTwo(wordMap, number);
    CombinationsAt(opts[0], opts[1], i, j);
    GetWordsAt(wordMap, number, i * |opts[1]| + j);
  }

  lemma WordListOfTwo(wordMap: WordMap, number: Option<string>)
    requires |SplitAndGetWordOptions(wordMap, number)| == 2
    ensures var opts := SplitAndGetWordOptions(wordMap, number);
            WordList(wordMap, number) == Combinations(opts[0], opts[1])
  {
  }

  lemma GetWordsAt(wordMap: WordMap, number: Option<string>, k: nat)
    requires k < |WordList(wordMap, number)|
    ensures GetWords(wordMap, number, Index(k)) == Some(WordList(wordMap, number)[k])
  {
  }

  // ---------------------------------------------------------------------------
  // Cycling.
  // ---------------------------------------------------------------------------

  datatype Direction = Up | Down

  /** JavaScript's `%` for a positive divisor: the remainder takes the dividend's sign. */
  function JsRem(a: int, b: int): int
    requires b > 0
  {
    if a >= 0 then a % b else -((-a) % b)
  }

  /** `changeDirection`'s state update. */
  function ChangeDirection(prev: WordIndex, direction: Direction, total: nat): WordIndex {
    match prev
    case NaN => NaN
    case Index(p) =>
      if total == 0 then NaN
      else if direction == Up then Index(JsRem(p + 1, total))
      else Index(JsRem(p - 1 + total, total))
  }

  /**
   * With options to cycle through, a non-negative index stays in `[0, total)`;
   * with none, the index becomes NaN, and NaN stays NaN.
   */
  lemma ChangeDirectionRange(prev: WordIndex, direction: Direction, total: nat)
    ensures (prev.Index? && prev.i >= 0 && total > 0) ==>
              ChangeDirection(prev, direction, total).Index?
              && 0 <= ChangeDirection(prev, direction, total).i < total
    ensures (total == 0 || prev.NaN?) ==> ChangeDirection(prev, direction, total) == NaN
  {
  }

  /** The remainders the cycling steps need. */
  lemma ModSmall(a: int, b: int)
    requires 0 <= a < b
    ensures a % b == a && (a + b) % b == a
  {
  }

  /** Up then down, or down then up, give back any index in range. */
  lemma ChangeDirectionInverse(p: int, total: nat)
    requires 0 <= p < total
    ensures ChangeDirection(ChangeDirection(Index(p), Up, total), Down, total) == Index(p)
    ensures ChangeDirection(ChangeDirection(Index(p), Down, total), Up, total) == Index(p)
  {
    ModSmall(p, total);
    ModSmall(0, total);
    ModSmall(total - 1, total);
    if p + 1 < total {
      ModSmall(p + 1, total);
      assert JsRem(p + 1, total) == p + 1;
      assert JsRem(p + 1 - 1 + total, total) == p;
    } else {
      assert JsRem(p + 1, total) == 0;
      assert JsRem(0 - 1 + total, total) == p;
    }
    if p > 0 {
      ModSmall(p - 1, total);
      assert JsRem(p - 1 + total, total) == p - 1;
      assert JsRem(p - 1 + 1, total) == p;
    } else {
      assert JsRem(p - 1 + total, total) == total - 1;
      assert JsRem(total - 1 + 1, total) == 0;
    }
  }

  /** `cycleWord`: nothing for a blank value, otherwise one step over the options. */
  function CycledIndex(wordMap: WordMap, number: Option<string>, prev: WordIndex, direction: Direction): WordIndex {
    if Blank(number) then prev
    else ChangeDirection(prev, direction, TotalCombinations(wordMap, number))
  }

  /** After a cycle from an index in range, the index names a word. */
  lemma CycledIndexNamesWord(wordMap: WordMap, number: Option<string>, p: int, direction: Direction)
    requires !Blank(number) && 0 <= p
    requires TotalCombinations(wordMap, number) > 0
    ensures GetWords(wordMap, number, CycledIndex(wordMap, number, Index(p), direction)).Some?
  {
    TotalMatchesWordList(wordMap, number);
    ChangeDirectionRange(Index(p), direction, TotalCombinations(wordMap, number));
  }

  // ---------------------------------------------------------------------------
  // Joining the chosen words.
  // ---------------------------------------------------------------------------

  /** `.filter(Boolean)` over words: drops null and the empty string, keeping order. */
  function Present(words: seq<Option<string>>): (r: seq<string>)
    ensures forall s :: s in r <==> Some(s) in words && s != ""
  {
    if words == [] then []
    else
      var rest := Present(words[1..]);
      assert forall s :: Some(s) in words <==> (Some(s) == words[0] || Some(s) in words[1..]);
      if words[0].Some? && words[0].value != "" then [words[0].value] + rest else rest
  }

  lemma {:induction false} PresentAppend(a: seq<Option<string>>, b: seq<Option<string>>)
    ensures Present(a + b) == Present(a) + Present(b)
  {
    if a == [] {
      assert a + b == b;
    } else {
      assert (a + b)[0] == a[0];
      assert (a + b)[1..] == a[1..] + b;
      PresentAppend(a[1..], b);
    }
  }

  /** `concatWords` over the day, month and year words. */
  function JoinWords(words: seq<Option<string>>): string {
    Join(", ", Present(words))
  }

  /** What `.filter(Boolean)` keeps of one word: the word itself unless it is null or empty. */
  function Kept(w: Option<string>): seq<string> {
    if w.Some? && w.value != "" then [w.value] else []
  }

  lemma PresentSingle(w: Option<string>)
    ensures Present([w]) == Kept(w)
  {
    assert [w][1..] == [];
  }

  /** The day, month and year words are joined in that order, each kept iff it is present and non-empty. */
  lemma JoinWordsThree(d: Option<string>, m: Option<string>, y: Option<string>)
    ensures JoinWords([d, m, y]) == Join(", ", Kept(d) + Kept(m) + Kept(y))
  {
    assert [d, m, y] == [d] + ([m] + [y]);
    PresentAppend([d], [m] + [y]);
    PresentAppend([m], [y]);
    PresentSingle(d);
    PresentSingle(m);
    PresentSingle(y);
    assert Present([d, m, y]) == Kept(d) + (Kept(m) + Kept(y));
    assert Kept(d) + (Kept(m) + Kept(y)) == Kept(d) + Kept(m) + Kept(y);
  }

  lemma JoinWordsExamples()
    ensures JoinWords([Some("hat"), Some("toe"), Some("lake")]) == "hat, toe, lake"
    ensures JoinWords([None, Some("toe"), Some("")]) == "toe"
  {
    PresentThreeWords();
    JoinThreeWords();
    PresentSkipsMissing();
  }

  lemma JoinThreeWords()
    ensures Join(", ", ["hat", "toe", "lake"]) == "hat, toe, lake"
  {
    var three := ["hat", "toe", "lake"];
    assert three[1..] == ["toe", "lake"] && three[1..][1..] == ["lake"];
    assert Join(", ", ["lake"]) == "lake";
    assert Join(", ", ["toe", "lake"]) == "toe" + ", " + "lake";
  }

  lemma PresentThreeWords()
    ensures Present([Some("hat"), Some("toe"), Some("lake")]) == ["hat", "toe", "lake"]
  {
    var ws := [Some("hat"), Some("toe"), Some("lake")];
    assert ws[1..][1..][1..] == [];
    assert Present(ws[1..][1..]) == ["lake"];
    assert Present(ws[1..]) == ["toe", "lake"];
  }

  lemma PresentSkipsMissing()
    ensures Present([None, Some("toe"), Some("")]) == ["toe"]
  {
    var ws: seq<Option<string>> := [None, Some("toe"), Some("")];
    assert ws[1..][1..][1..] == [];
    assert Present(ws[1..][1..]) == [];
    assert Present(ws[1..]) == ["toe"];
  }

  // ---------------------------------------------------------------------------
  // The hook's state.
  // ---------------------------------------------------------------------------

  datatype Part = Day | Month | Year

  predicate NonNegative(w: WordIndex) {
    w.NaN? || w.i >= 0
  }

  /** `useRememberingDates`: the three typed parts and their word indices; `wordMap` as given. */
  class RememberingDates {
    var day: Option<string>
    var month: Option<string>
    var year: Option<string>
    var dayWordIndex: WordIndex
    var monthWordIndex: WordIndex
    var yearWordIndex: WordIndex
    const wordMap: WordMap

    function ValueOf(part: Part): Option<string>
      reads this
    {
      match part
      case Day => day
      case Month => month
      case Year => year
    }

    function IndexOf(part: Part): WordIndex
      reads this
    {
      match part
      case Day => dayWordIndex
      case Month => monthWordIndex
      case Year => yearWordIndex
    }

    /** Every word index is NaN or non-negative. */
    predicate Valid()
      reads this
    {
      NonNegative(dayWordIndex) && NonNegative(monthWordIndex) && NonNegative(yearWordIndex)
    }

    constructor(wordMap: WordMap, day: Option<string>, month: Option<string>, year: Option<string>)
      ensures Valid()
      ensures this.wordMap == wordMap && this.day == day && this.month == month && this.year == year
      ensures forall part :: IndexOf(part) == Index(0)
    {
      this.wordMap := wordMap;
      this.day := day;
      this.month := month;
      this.year := year;
      dayWordIndex := Index(0);
      monthWordIndex := Index(0);
      yearWordIndex := Index(0);
    }

    /** `handleDayChange`, `handleMonthChange`, `handleYearChange`: store the value, restart at word 0. */
    method HandleChange(part: Part, value: string)
      requires Valid()
      modifies this
      ensures Valid()
      ensures ValueOf(part) == Some(value) && IndexOf(part) == Index(0)
      ensures forall other :: other != part ==> ValueOf(other) == old(ValueOf(other)) && IndexOf(other) == old(IndexOf(other))
    {
      match part
      case Day =>
        day := Some(value);
        dayWordIndex := Index(0);
      case Month =>
        month := Some(value);
        monthWordIndex := Index(0);
      case Year =>
        year := Some(value);
        yearWordIndex := Index(0);
    }

    /** `cycleDayWord`, `cycleMonthWord`, `cycleYearWord`. */
    method CycleWord(part: Part, direction: Direction)
      requires Valid()
      modifies this
      ensures Valid()
      ensures IndexOf(part) == CycledIndex(wordMap, old(ValueOf(part)), old(IndexOf(part)), direction)
      ensures forall q :: ValueOf(q) == old(ValueOf(q))
      ensures forall other :: other != part ==> IndexOf(other) == old(IndexOf(other))
    {
      var number := ValueOf(part);
      if number.None? || number.value == "" {
        return;
      }
      var chunkOptions := SplitAndGetWordOptions(wordMap, number);
      var totalCombinations := 0;
      if |chunkOptions| == 2 {
        ProductNonNegative(|chunkOptions[0]|, |chunkOptions[1]|);
        totalCombinations := |chunkOptions[0]| * |chunkOptions[1]|;
      } else {
        totalCombinations := |Concat(chunkOptions)|;
      }
      assert totalCombinations == TotalCombinations(wordMap, number);
      var next := ChangeDirection(IndexOf(part), direction, totalCombinations);
      ChangeDirectionRange(IndexOf(part), direction, totalCombinations);
      SetIndex(part, next);
    }

    /** The `setDayWordIndex`, `setMonthWordIndex`, `setYearWordIndex` setters. */
    method SetIndex(part: Part, w: WordIndex)
      requires Valid() && NonNegative(w)
      modifies this
      ensures Valid()
      ensures IndexOf(part) == w
      ensures forall q :: ValueOf(q) == old(ValueOf(q))
      ensures forall other :: other != part ==> IndexOf(other) == old(IndexOf(other))
    {
      match part
      case Day => dayWordIndex := w;
      case Month => monthWordIndex := w;
      case Year => yearWordIndex := w;
    }

    /** `getDayWord`, `getMonthWord`, `getYearWord`. */
    method GetWord(part: Part) returns (word: Option<string>)
      ensures word.Some? <==> IndexOf(part).Index? && 0 <= IndexOf(part).i < TotalCombinations(wordMap, ValueOf(part))
      ensures word.Some? ==> IndexOf(part).Index? && 0 <= IndexOf(part).i < |WordList(wordMap, ValueOf(part))|
                               && word.value == WordList(wordMap, ValueOf(part))[IndexOf(part).i]
    {
      TotalMatchesWordList(wordMap, ValueOf(part));
      word := GetWords(wordMap, ValueOf(part), IndexOf(part));
    }

    /** `concatWords`: the words of day, month and year, in that order, without blanks. */
    method ConcatWords() returns (s: string)
      ensures s == Join(", ", Kept(GetWords(wordMap, day, dayWordIndex))
                              + Kept(GetWords(wordMap, month, monthWordIndex))
                              + Kept(GetWords(wordMap, year, yearWordIndex)))
    {
      var dayWord := GetWord(Day);
      var monthWord := GetWord(Month);
      var yearWord := GetWord(Year);
      GetWordIsGetWords(Day, dayWord);
      GetWordIsGetWords(Month, monthWord);
      GetWordIsGetWords(Year, yearWord);
      JoinWordsThree(dayWord, monthWord, yearWord);
      s := JoinWords([dayWord, monthWord, yearWord]);
    }

    /** The getter's two ensures pin down the `getWords` result. */
    lemma GetWordIsGetWords(part: Part, word: Option<string>)
      requires word.Some? <==> IndexOf(part).Index? && 0 <= IndexOf(part).i < TotalCombinations(wordMap, ValueOf(part))
      requires word.Some? ==> IndexOf(part).Index? && 0 <= IndexOf(part).i < |WordList(wordMap, ValueOf(part))|
                                && word.value == WordList(wordMap, ValueOf(part))[IndexOf(part).i]
      ensures word == GetWords(wordMap, ValueOf(part), IndexOf(part))
    {
      TotalMatchesWordList(wordMap, ValueOf(part));
    }
  }
}
