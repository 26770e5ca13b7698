/**
 * Where the image route stores a generated image: a folder named after the
 * date and a sanitised form of the words, and a file `image-N.png` numbered
 * one past the largest number already in the folder. The directory listing and
 * today's date are given; the image bytes and the image service are not part
 * of this model.
 */
module ImageNaming {
  import opened Common

  // ---------------------------------------------------------------------------
  // The words folder.
  // ---------------------------------------------------------------------------

  /** The class `[\,\s]`: a comma or whitespace. */
  predicate IsSeparator(c: char) {
    c == ',' || IsJsSpace(c)
  }

  /** The class `[a-zA-Z0-9_-]`. */
  predicate IsAllowed(c: char) {
    'a' <= c <= 'z' || 'A' <= c <= 'Z' || IsDigit(c) || c == '_' || c == '-'
  }

  /** The characters of a sanitised folder name: `[a-z0-9_-]`. */
  predicate IsFolderChar(c: char) {
    'a' <= c <= 'z' || IsDigit(c) || c == '_' || c == '-'
  }

  /** The leading run of separators removed. */
  function DropSeparators(s: string): (r: string)
    ensures |r| <= |s|
    ensures s != [] && IsSeparator(s[0]) ==> |r| < |s|
  {
    if s != [] && IsSeparator(s[0]) then DropSeparators(s[1..]) else s
  }

  /** What is dropped is a run of separators at the front, and what is left starts with none. */
  lemma {:induction false} DropSeparatorsSpec(s: string)
    ensures var r := DropSeparators(s);
            (r == [] || !IsSeparator(r[0]))
            && r == s[|s| - |r|..]
            && forall i :: 0 <= i < |s| - |r| ==> IsSeparator(s[i])
  {
    if s != [] && IsSeparator(s[0]) {
      DropSeparatorsSpec(s[1..]);
      var r := DropSeparators(s[1..]);
      assert s[1..][|s| - 1 - |r|..] == s[|s| - |r|..];
      assert forall i :: 1 <= i < |s| - |r| ==> s[i] == s[1..][i - 1];
    }
  }

  /** `.replace(/[\,\s]+/g, '-')`: every maximal run of separators becomes one `-`. */
  function CollapseSeparators(s: string): string
    decreases |s|
  {
    if s == [] then []
    else if IsSeparator(s[0]) then ['-'] + CollapseSeparators(DropSeparators(s))
    else [s[0]] + CollapseSeparators(s[1..])
  }

  /** No separator survives the collapse. */
  lemma {:induction false} CollapseRemovesSeparators(s: string)
    decreases |s|
    ensures forall i :: 0 <= i < |CollapseSeparators(s)| ==> !IsSeparator(CollapseSeparators(s)[i])
  {
    if s != [] {
      var rest := if IsSeparator(s[0]) then DropSeparators(s) else s[1..];
      CollapseRemovesSeparators(rest);
      var tail := CollapseSeparators(rest);
      var head := if IsSeparator(s[0]) then '-' else s[0];
      assert CollapseSeparators(s) == [head] + tail;
      assert forall i :: 0 < i <= |tail| ==> ([head] + tail)[i] == tail[i - 1];
    }
  }

  /** What the replacement leaves of one character. */
  function AllowedPart(c: char): string {
    if IsAllowed(c) then [c] else []
  }

  /** `.replace(/[^a-zA-Z0-9_-]/g, '')`. */
  function StripDisallowed(s: string): (r: string)
    ensures forall i :: 0 <= i < |r| ==> IsAllowed(r[i])
  {
    if s == [] then []
    else AllowedPart(s[0]) + StripDisallowed(s[1..])
  }

  lemma StripDisallowedCons(s: string)
    requires s != []
    ensures StripDisallowed(s) == AllowedPart(s[0]) + StripDisallowed(s[1..])
    ensures s == [s[0]] + s[1..]
  {
  }

  /** Stripping works piece by piece, so the allowed characters stay in their order. */
  lemma {:induction false} StripDisallowedAppend(a: string, b: string)
    ensures StripDisallowed(a + b) == StripDisallowed(a) + StripDisallowed(b)
  {
    if a != [] {
      StripDisallowedCons(a);
      assert (a + b)[0] == a[0] && (a + b)[1..] == a[1..] + b;
      StripDisallowedCons(a + b);
      StripDisallowedAppend(a[1..], b);
      assert AllowedPart(a[0]) + (StripDisallowed(a[1..]) + StripDisallowed(b))
          == (AllowedPart(a[0]) + StripDisallowed(a[1..])) + StripDisallowed(b);
    } else {
      assert a + b == b;
    }
  }

  /** A single character is kept exactly when it is allowed. */
  lemma StripDisallowedChar(c: char)
    ensures StripDisallowed([c]) == AllowedPart(c)
  {
    StripDisallowedCons([c]);
  }

  /** Every allowed character occurs as often as in the input, every other one not at all. */
  lemma {:induction false} StripDisallowedCount(s: string, c: char)
    ensures multiset(StripDisallowed(s))[c] == if IsAllowed(c) then multiset(s)[c] else 0
  {
    if s != [] {
      StripDisallowedCons(s);
      StripDisallowedCount(s[1..], c);
      CountCons(s[0], AllowedPart(s[0]), StripDisallowed(s[1..]), s[1..], StripDisallowed(s), s, c);
    }
  }

  /** `"a!b"` strips to `"ab"`. */
  lemma StripDisallowedExample()
    ensures StripDisallowed("a!b") == "ab"
  {
    var s := "a!b";
    StripDisallowedCons(s);
    assert s[1..] == "!b";
    StripDisallowedCons(s[1..]);
    assert s[1..][1..] == "b";
    StripDisallowedChar('b');
  }

  function LowerChar(c: char): char {
    if 'A' <= c <= 'Z' then (c as int - 'A' as int + 'a' as int) as char else c
  }

  /** `.toLowerCase()`; after stripping only ASCII letters are left to lower. */
  function LowerAscii(s: string): (r: string)
    ensures |r| == |s|
    ensures forall i :: 0 <= i < |s| ==> r[i] == LowerChar(s[i])
  {
    if s == [] then [] else [LowerChar(s[0])] + LowerAscii(s[1..])
  }

  /** `wordsFolder`: `untitled` for missing or empty words, otherwise trimmed, collapsed, stripped, lowered. */
  function WordsFolder(words: Option<string>): string {
    if Blank(words) then "untitled"
    else LowerAscii(StripDisallowed(CollapseSeparators(Trim(words.value))))
  }

  /** Whatever the words, the folder name uses only `[a-z0-9_-]`. */
  lemma WordsFolderCharset(words: Option<string>)
    ensures forall i :: 0 <= i < |WordsFolder(words)| ==> IsFolderChar(WordsFolder(words)[i])
  {
    if !Blank(words) {
      var stripped := StripDisallowed(CollapseSeparators(Trim(words.value)));
      forall i | 0 <= i < |stripped|
        ensures IsFolderChar(LowerChar(stripped[i]))
      {
        assert IsAllowed(stripped[i]);
      }
    }
  }

  /** Missing or empty words give `untitled`. */
  lemma EmptyWordsUntitled()
    ensures WordsFolder(None) == "untitled" && WordsFolder(Some("")) == "untitled"
  {
  }

  /** Words made only of whitespace give the empty name, not `untitled`. */
  lemma BlankWordsGiveEmptyName(words: string)
    requires words != [] && forall i :: 0 <= i < |words| ==> IsJsSpace(words[i])
    ensures WordsFolder(Some(words)) == ""
  {
    assert TrimStart(words) == [];
  }

  /** Text wholly outside the allowed class strips to nothing, text wholly inside it is kept. */
  lemma {:induction false} StripDisallowedSpec(s: string)
    ensures (forall i :: 0 <= i < |s| ==> !IsAllowed(s[i])) ==> StripDisallowed(s) == []
    ensures (forall i :: 0 <= i < |s| ==> IsAllowed(s[i])) ==> StripDisallowed(s) == s
  {
    if s != [] {
      StripDisallowedSpec(s[1..]);
      assert s == [s[0]] + s[1..];
    }
  }

  lemma {:induction false} CollapseWithoutSeparators(s: string)
    requires forall i :: 0 <= i < |s| ==> !IsSeparator(s[i])
    ensures CollapseSeparators(s) == s
  {
    if s != [] {
      CollapseWithoutSeparators(s[1..]);
      assert s == [s[0]] + s[1..];
    }
  }

  /** Words made only of characters that are neither allowed nor separators give the empty name. */
  lemma PunctuationGivesEmptyName(words: string)
    requires words != []
    requires forall i :: 0 <= i < |words| ==> !IsAllowed(words[i]) && !IsSeparator(words[i])
    ensures WordsFolder(Some(words)) == ""
  {
    assert TrimStart(words) == words;
    assert TrimEnd(words) == words;
    CollapseWithoutSeparators(words);
    StripDisallowedSpec(words);
  }

  /** Words made only of commas collapse to a single `-`, which survives stripping and lowering. */
  lemma CommasGiveDash(words: string)
    requires words != []
    requires forall i :: 0 <= i < |words| ==> words[i] == ','
    ensures WordsFolder(Some(words)) == "-"
  {
    TrimStartNoSpace(words);
    assert !IsJsSpace(words[|words| - 1]);
    assert TrimEnd(words) == words;
    assert [] + words + [] == words;
    CollapseRun([], words, []);
    StripDisallowedChar('-');
  }

  lemma {:induction false} DropSeparatorsAppend(a: string, b: string)
    requires a != [] && !IsSeparator(a[|a| - 1])
    ensures DropSeparators(a + b) == DropSeparators(a) + b
  {
    assert (a + b)[0] == a[0];
    if IsSeparator(a[0]) {
      assert (a + b)[1..] == a[1..] + b;
      DropSeparatorsAppend(a[1..], b);
    }
  }

  /** Collapsing works piece by piece across a boundary after a non-separator. */
  lemma {:induction false} CollapseAppend(a: string, b: string)
    requires a == [] || !IsSeparator(a[|a| - 1])
    ensures CollapseSeparators(a + b) == CollapseSeparators(a) + CollapseSeparators(b)
    decreases |a|, 1
  {
    if a == [] {
      assert a + b == b;
    } else if IsSeparator(a[0]) {
      CollapseAppendAtRun(a, b);
    } else {
      CollapseAppendAtWord(a, b);
    }
  }

  lemma {:induction false} CollapseAppendAtRun(a: string, b: string)
    requires a != [] && IsSeparator(a[0]) && !IsSeparator(a[|a| - 1])
    ensures CollapseSeparators(a + b) == CollapseSeparators(a) + CollapseSeparators(b)
    decreases |a|, 0
  {
    var rest := DropSeparators(a);
    DropKeepsLast(a);
    CollapseAppend(rest, b);
    CollapseAppendRunHead(a, b);
    CollapseAtRun(a);
    var cr, cb := CollapseSeparators(rest), CollapseSeparators(b);
    assert ['-'] + (cr + cb) == (['-'] + cr) + cb;
  }

  /** Dropping the leading run of a text that ends in a non-separator keeps that last character. */
  lemma DropKeepsLast(a: string)
    requires a != [] && !IsSeparator(a[|a| - 1])
    ensures DropSeparators(a) != [] && DropSeparators(a)[|DropSeparators(a)| - 1] == a[|a| - 1]
  {
    DropSeparatorsSpec(a);
  }

  lemma CollapseAppendRunHead(a: string, b: string)
    requires a != [] && IsSeparator(a[0]) && !IsSeparator(a[|a| - 1])
    ensures CollapseSeparators(a + b) == ['-'] + CollapseSeparators(DropSeparators(a) + b)
  {
    DropSeparatorsAppend(a, b);
    assert (a + b)[0] == a[0];
    CollapseAtRun(a + b);
  }

  lemma {:induction false} CollapseAppendAtWord(a: string, b: string)
    requires a != [] && !IsSeparator(a[0]) && !IsSeparator(a[|a| - 1])
    ensures CollapseSeparators(a + b) == CollapseSeparators(a) + CollapseSeparators(b)
    decreases |a|, 0
  {
    CollapseAppend(a[1..], b);
    CollapseAppendWordHead(a, b);
    CollapseAtWord(a);
    var cr, cb := CollapseSeparators(a[1..]), CollapseSeparators(b);
    assert [a[0]] + (cr + cb) == ([a[0]] + cr) + cb;
  }

  lemma CollapseAppendWordHead(a: string, b: string)
    requires a != [] && !IsSeparator(a[0])
    ensures CollapseSeparators(a + b) == [a[0]] + CollapseSeparators(a[1..] + b)
  {
    assert (a + b)[0] == a[0];
    assert (a + b)[1..] == a[1..] + b;
    CollapseAtWord(a + b);
  }

  lemma CollapseAtRun(s: string)
    requires s != [] && IsSeparator(s[0])
    ensures CollapseSeparators(s) == ['-'] + CollapseSeparators(DropSeparators(s))
  {
  }

  lemma CollapseAtWord(s: string)
    requires s != [] && !IsSeparator(s[0])
    ensures CollapseSeparators(s) == [s[0]] + CollapseSeparators(s[1..])
  {
  }

  /** A run of separators between two words becomes a single `-`. */
  lemma {:induction false} CollapseRun(a: string, run: string, b: string)
    requires a == [] || !IsSeparator(a[|a| - 1])
    requires run != [] && forall i :: 0 <= i < |run| ==> IsSeparator(run[i])
    requires b == [] || !IsSeparator(b[0])
    ensures CollapseSeparators(a + run + b) == CollapseSeparators(a) + "-" + CollapseSeparators(b)
  {
    assert a + run + b == a + (run + b);
    CollapseAppend(a, run + b);
    CollapseRunHead(run, b);
  }

  lemma {:induction false} CollapseRunHead(run: string, b: string)
    requires run != [] && forall i :: 0 <= i < |run| ==> IsSeparator(run[i])
    requires b == [] || !IsSeparator(b[0])
    ensures CollapseSeparators(run + b) == "-" + CollapseSeparators(b)
  {
    DropRun(run, b);
    assert (run + b)[0] == run[0];
  }

  lemma {:induction false} DropRun(run: string, b: string)
    requires forall i :: 0 <= i < |run| ==> IsSeparator(run[i])
    requires b == [] || !IsSeparator(b[0])
    ensures DropSeparators(run + b) == b
  {
    if run == [] {
      assert run + b == b;
    } else {
      assert (run + b)[1..] == run[1..] + b;
      DropRun(run[1..], b);
    }
  }

  // ---------------------------------------------------------------------------
  // The next image number.
  // ---------------------------------------------------------------------------

  /** The `filter` on the listing: names starting `image-` and ending `.png`. */
  predicate Listed(f: string) {
    StartsWith(f, "image-") && EndsWith(f, ".png")
  }

  function ListedFiles(listing: seq<string>): (r: seq<string>)
    ensures forall f :: f in r <==> f in listing && Listed(f)
  {
    if listing == [] then []
    else
      var rest := ListedFiles(listing[1..]);
      assert forall f :: f in listing <==> f == listing[0] || f in listing[1..];
      if Listed(listing[0]) then [listing[0]] + rest else rest
  }

  /** The longest run of digits at the end of `s`. */
  function TrailingDigits(s: string): (r: string)
    ensures |r| <= |s| && AllDigits(r) && r == s[|s| - |r|..]
    ensures |r| < |s| ==> !IsDigit(s[|s| - |r| - 1])
  {
    if s != [] && IsDigit(s[|s| - 1]) then TrailingDigits(s[..|s| - 1]) + [s[|s| - 1]] else []
  }

  /**
   * The match of `/image-(\d+)\.png$/`: the text before `image-` and the
   * captured digits, when the name ends that way.
   */
  function MatchParts(f: string): (r: Option<(string, string)>)
    ensures r.Some? ==>
              r.value.1 != [] && AllDigits(r.value.1) && f == r.value.0 + "image-" + r.value.1 + ".png"
  {
    if !EndsWith(f, ".png") then None
    else
      var body := f[..|f| - 4];
      var digits := TrailingDigits(body);
      var before := body[..|body| - |digits|];
      if digits != [] && EndsWith(before, "image-") then
        assert f == body + ".png";
        assert body == before + digits;
        assert before == before[..|before| - 6] + "image-";
        Some((before[..|before| - 6], digits))
      else None
  }

  /** `Number.parseInt(match[1], 10)` when the name matches. */
  function MatchNumber(f: string): Option<nat> {
    match MatchParts(f)
    case Some(parts) => Some(DigitsValue(parts.1))
    case None => None
  }

  lemma {:induction false} TrailingDigitsOf(q: string, d: string)
    requires AllDigits(d)
    requires q == [] || !IsDigit(q[|q| - 1])
    ensures TrailingDigits(q + d) == d
    decreases |d|
  {
    if d == [] {
      assert q + d == q;
    } else {
      var d', c := d[..|d| - 1], d[|d| - 1];
      assert d == d' + [c];
      assert (q + d)[..|q + d| - 1] == q + d';
      assert (q + d)[|q + d| - 1] == c && IsDigit(c);
      TrailingDigitsOf(q, d');
      assert TrailingDigits(q + d) == TrailingDigits(q + d') + [c];
    }
  }

  /** Every name of the form `<prefix>image-<digits>.png` matches, with exactly those digits. */
  lemma MatchPartsComplete(prefix: string, digits: string)
    requires digits != [] && AllDigits(digits)
    ensures MatchParts(prefix + ImageName(digits)) == Some((prefix, digits))
    ensures MatchNumber(prefix + ImageName(digits)) == Some(DigitsValue(digits))
  {
    var f := prefix + "image-" + digits + ".png";
    assert prefix + ImageName(digits) == f;
    var body := prefix + "image-" + digits;
    assert f[..|f| - 4] == body;
    assert f[|f| - 4..] == ".png";
    TrailingDigitsOf(prefix + "image-", digits);
    assert body[..|body| - |digits|] == prefix + "image-";
  }

  /** The largest matched number among `files`, or 0. */
  function MaxNumber(files: seq<string>): nat {
    if files == [] then 0
    else
      var m := MaxNumber(files[..|files| - 1]);
      match MatchNumber(files[|files| - 1])
      case Some(n) => if n > m then n else m
      case None => m
  }

  /** The maximum bounds every matched number and is 0 or one of them. */
  lemma {:induction false} MaxNumberSpec(files: seq<string>)
    ensures forall f :: f in files && MatchNumber(f).Some? ==> MatchNumber(f).value <= MaxNumber(files)
    ensures MaxNumber(files) == 0 || exists f :: f in files && MatchNumber(f) == Some(MaxNumber(files))
  {
    if files != [] {
      var init := files[..|files| - 1];
      var last := files[|files| - 1];
      MaxNumberSpec(init);
      assert files == init + [last];
      assert forall f :: f in files <==> f in init || f == last;
    }
  }

  function NextNumber(listing: seq<string>): nat {
    MaxNumber(ListedFiles(listing)) + 1
  }

  /** The scan over the listed files, keeping the largest number seen. */
  method NextImageNumber(listing: seq<string>) returns (nextNum: nat)
    ensures nextNum == NextNumber(listing)
  {
    var files := ListedFiles(listing);
    var maxNum := 0;
    for k := 0 to |files|
      invariant maxNum == MaxNumber(files[..k])
    {
      var f := files[k];
      var match_ := MatchNumber(f);
      assert files[..k + 1][..k] == files[..k];
      if match_.Some? {
        var num := match_.value;
        if num > maxNum {
          maxNum := num;
        }
      }
    }
    assert files[..|files|] == files;
    nextNum := maxNum + 1;
  }

  function ImageName(digits: string): string {
    "image-" + digits + ".png"
  }

  /** `image-${nextNum}.png`. */
  function ImageFileName(n: nat): string {
    ImageName(NatToString(n))
  }

  /** The name of the new image reads back as its number. */
  lemma ImageFileNameMatches(n: nat)
    ensures Listed(ImageFileName(n))
    ensures MatchNumber(ImageFileName(n)) == Some(n)
  {
    ImageFileNameListed(n);
    ImageFileNameNumber(n);
  }

  lemma ImageFileNameListed(n: nat)
    ensures Listed(ImageFileName(n))
  {
    var name := ImageFileName(n);
    assert name[..6] == "image-";
    assert name[|name| - 4..] == ".png";
  }

  lemma ImageFileNameNumber(n: nat)
    ensures MatchNumber(ImageFileName(n)) == Some(n)
  {
    assert ImageFileName(n) == [] + ImageName(NatToString(n));
    MatchPartsComplete([], NatToString(n));
    NatToStringValue(n);
  }

  /**
   * The next number exceeds every listed image's number, so the new file name
   * is not in the listing; with no listed image it is 1.
   */
  lemma NextNumberIsFresh(listing: seq<string>)
    ensures forall f :: f in listing && Listed(f) && MatchNumber(f).Some? ==> MatchNumber(f).value < NextNumber(listing)
    ensures ImageFileName(NextNumber(listing)) !in listing
    ensures (forall f :: f in listing ==> !Listed(f)) ==> NextNumber(listing) == 1
  {
    var n := NextNumber(listing);
    MaxNumberSpec(ListedFiles(listing));
    ImageFileNameMatches(n);
    var files := ListedFiles(listing);
    if files != [] {
      assert files[0] in files;
    }
  }

  // ---------------------------------------------------------------------------
  // The returned path.
  // ---------------------------------------------------------------------------

  /** `date || today`, today being the ISO date of the clock. */
  function DateFolder(date: Option<string>, today: string): string {
    if Blank(date) then today else date.value
  }

  /** `images/${dateFolder}/${wordsFolder}`. */
  function FolderPath(dateFolder: string, wordsFolder: string): string {
    "images/" + dateFolder + "/" + wordsFolder
  }

  function ImagePath(dateFolder: string, wordsFolder: string, n: nat): string {
    FolderPath(dateFolder, wordsFolder) + "/" + ImageFileName(n)
  }

  /** The returned path lies under `images/`, and its file name reads back as the number chosen. */
  lemma {:induction false} ImagePathSpec(dateFolder: string, wordsFolder: string, n: nat)
    ensures StartsWith(ImagePath(dateFolder, wordsFolder, n), "images/")
    ensures MatchNumber(ImagePath(dateFolder, wordsFolder, n)) == Some(n)
  {
    ImagePathPrefix(dateFolder, wordsFolder, n);
    ImagePathNumber(FolderPath(dateFolder, wordsFolder) + "/", n);
  }

  lemma {:induction false} ImagePathPrefix(dateFolder: string, wordsFolder: string, n: nat)
    ensures StartsWith(ImagePath(dateFolder, wordsFolder, n), "images/")
  {
    var path := ImagePath(dateFolder, wordsFolder, n);
    var folder := FolderPath(dateFolder, wordsFolder);
    assert |folder| >= 7 && folder[..7] == "images/";
    assert path[..7] == folder[..7];
  }

  lemma {:induction false} ImagePathNumber(prefix: string, n: nat)
    ensures MatchNumber(prefix + ImageFileName(n)) == Some(n)
  {
    MatchPartsComplete(prefix, NatToString(n));
    NatToStringValue(n);
  }

  /**
   * The naming part of `generateImage`: given the request's words and date,
   * today's date and the folder's listing, the path of the image to write.
   */
  method GenerateImagePath(words: Option<string>, date: Option<string>, today: string, listing: seq<string>)
    returns (path: string)
    ensures path == ImagePath(DateFolder(date, today), WordsFolder(words), NextNumber(listing))
  {
    var dateFolder := if date.None? || date.value == "" then today else date.value;
    var wordsFolder := WordsFolder(words);
    var nextNum := NextImageNumber(listing);
    var fileName := ImageFileName(nextNum);
    var folderPathStaticImages := "images/" + dateFolder + "/" + wordsFolder;
    path := folderPathStaticImages + "/" + fileName;
  }
}
