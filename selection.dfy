/** Turning what the user chose into a chapter number and a verse range, in each of the
    ways the scripts do it. */
module Selection {
  import opened Outcomes
  import opened PyText

  /** A 1-based verse range `start..end`, both ends included. */
  datatype VerseRange = VerseRange(start: int, end: int)

  /** A verse number held inside 1..total, the lower bound winning when total < 1. */
  function Clamp(x: int, total: int): int
  {
    Max(1, Min(x, total))
  }

  /** A pair put in order: a reversed pair is swapped. */
  function Ordered(a: int, b: int): VerseRange
  {
    if a > b then VerseRange(b, a) else VerseRange(a, b)
  }

  /** The two numbers of a range text split at '-': the first part and, when there is a
      second part, the second, else the first again; further parts are never read. `None`
      when `int()` rejects either part. */
  function RangeNumbers(text: string): Option<(int, int)>
  {
    var parts := Split(text, '-');
    match ParseInt(parts[0])
    case None => None
    case Some(a) =>
      if |parts| > 1 then
        match ParseInt(parts[1])
        case None => None
        case Some(b) => Some((a, b))
      else Some((a, a))
  }

  // ---------------------------------------------------------------- lenient resolution

  /** The lenient range reading: blank text or text `int()` rejects means the whole chapter;
      otherwise both numbers are clamped into `1..total` and put in order. */
  function LenientRange(text: string, total: int): (r: VerseRange)
    ensures r.start >= 1
    ensures total >= 1 ==> 1 <= r.start <= r.end <= total
  {
    if Strip(text) == [] then VerseRange(1, total)
    else
      match RangeNumbers(text)
      case None => VerseRange(1, total)
      case Some((a, b)) => Ordered(Clamp(a, total), Clamp(b, total))
  }

  lemma NotBlankWith(text: string, i: int)
    requires 0 <= i < |text| && !IsSpace(text[i])
    ensures Strip(text) != []
  {
    StripEmptyIffBlank(text);
  }

  /** Empty or whitespace-only text selects the whole chapter. */
  lemma LenientBlank(text: string, total: int)
    requires IsBlank(text)
    ensures LenientRange(text, total) == VerseRange(1, total)
  {
    StripEmptyIffBlank(text);
  }

  /** The numbers of "x-y" when `int()` accepts both parts. */
  lemma RangeNumbersOfPair(x: string, y: string, a: int, b: int)
    requires '-' !in x && '-' !in y
    requires ParseInt(x) == Some(a) && ParseInt(y) == Some(b)
    ensures RangeNumbers(x + "-" + y) == Some((a, b))
  {
    SplitPair(x, '-', y);
  }

  /** A non-blank text whose numbers are read is resolved by clamping and ordering them. */
  lemma LenientOfNumbers(text: string, total: int, a: int, b: int)
    requires Strip(text) != [] && RangeNumbers(text) == Some((a, b))
    ensures LenientRange(text, total) == Ordered(Clamp(a, total), Clamp(b, total))
  {
  }

  /** The digits of two integers, joined by '-', with no '-' in either part. */
  lemma PairText(a: int, b: int)
    requires a >= 0 && b >= 0
    ensures '-' !in IntToString(a) && '-' !in IntToString(b)
    ensures ParseInt(IntToString(a)) == Some(a) && ParseInt(IntToString(b)) == Some(b)
    ensures RangeNumbers(IntToString(a) + "-" + IntToString(b)) == Some((a, b))
    ensures Strip(IntToString(a) + "-" + IntToString(b)) != []
  {
    var x, y := IntToString(a), IntToString(b);
    IntToStringHasNo(a, '-');
    IntToStringHasNo(b, '-');
    ParseIntToString(a);
    ParseIntToString(b);
    RangeNumbersOfPair(x, y, a, b);
    NotBlankWith(x + "-" + y, |x|);
  }

  /** "a-b" with two non-negative numbers: both clamped, then swapped when inverted. So an
      already valid pair comes back unchanged and an inverted valid pair comes back
      swapped. */
  lemma LenientPair(a: int, b: int, total: int)
    requires a >= 0 && b >= 0
    ensures LenientRange(IntToString(a) + "-" + IntToString(b), total)
            == Ordered(Clamp(a, total), Clamp(b, total))
    ensures 1 <= a <= b <= total ==>
              LenientRange(IntToString(a) + "-" + IntToString(b), total) == VerseRange(a, b)
    ensures 1 <= b < a <= total ==>
              LenientRange(IntToString(a) + "-" + IntToString(b), total) == VerseRange(b, a)
  {
    PairText(a, b);
    LenientOfNumbers(IntToString(a) + "-" + IntToString(b), total, a, b);
  }

  /** A text without '-' that `int()` accepts selects that one verse, clamped. */
  lemma LenientSingle(text: string, n: int, total: int)
    requires '-' !in text && ParseInt(text) == Some(n)
    ensures LenientRange(text, total) == VerseRange(Clamp(n, total), Clamp(n, total))
  {
    SplitNoSep(text, '-');
  }

  /** Only the first two '-'-separated parts are read: whatever follows a second '-' is
      ignored. */
  lemma LenientIgnoresTail(a: string, b: string, rest: string, total: int)
    requires '-' !in a && '-' !in b
    ensures LenientRange(a + "-" + b + "-" + rest, total) == LenientRange(a + "-" + b, total)
  {
    RangeNumbersIgnoreTail(a, b, rest);
    NotBlankWith(a + "-" + b + "-" + rest, |a|);
    NotBlankWith(a + "-" + b, |a|);
    LenientByNumbers(a + "-" + b + "-" + rest, a + "-" + b, total);
  }

  lemma RangeNumbersIgnoreTail(a: string, b: string, rest: string)
    requires '-' !in a && '-' !in b
    ensures RangeNumbers(a + "-" + b + "-" + rest) == RangeNumbers(a + "-" + b)
  {
    var t := a + "-" + b + "-" + rest;
    assert t == a + ['-'] + (b + ['-'] + rest);
    SplitAtFirst(a, '-', b + ['-'] + rest);
    SplitAtFirst(b, '-', rest);
    var p := Split(t, '-');
    assert |p| > 1 && p[0] == a && p[1] == b;
    SplitPair(a, '-', b);
    assert Split(a + "-" + b, '-') == [a, b];
  }

  /** Two non-blank texts with the same numbers resolve alike. */
  lemma LenientByNumbers(t1: string, t2: string, total: int)
    requires Strip(t1) != [] && Strip(t2) != [] && RangeNumbers(t1) == RangeNumbers(t2)
    ensures LenientRange(t1, total) == LenientRange(t2, total)
  {
  }

  /** Text starting with '-' (such as "-3") has an empty first part, which `int()`
      rejects: the whole chapter. */
  lemma LenientLeadingDash(rest: string, total: int)
    ensures LenientRange("-" + rest, total) == VerseRange(1, total)
  {
    SplitAtFirst("", '-', rest);
    assert "" + "-" + rest == "-" + rest;
  }

  /** "n-" has an empty second part, which `int()` rejects: the whole chapter. */
  lemma LenientTrailingDash(n: int, total: int)
    requires n >= 0
    ensures LenientRange(IntToString(n) + "-", total) == VerseRange(1, total)
  {
    var x := IntToString(n);
    IntToStringHasNo(n, '-');
    SplitAtFirst(x, '-', "");
    assert x + "-" + "" == x + "-";
    ParseIntToString(n);
  }

  /** With a chapter of no verses, blank text gives (1, 0) but any numeric text (1, 1). */
  lemma LenientZeroTotal(text: string)
    ensures IsBlank(text) ==> LenientRange(text, 0) == VerseRange(1, 0)
    ensures !IsBlank(text) && RangeNumbers(text).Some? ==> LenientRange(text, 0) == VerseRange(1, 1)
  {
    StripEmptyIffBlank(text);
    if !IsBlank(text) && RangeNumbers(text).Some? {
      var (a, b) := RangeNumbers(text).value;
      LenientOfNumbers(text, 0, a, b);
      assert Clamp(a, 0) == 1 && Clamp(b, 0) == 1;
    }
  }

  // ---------------------------------------------------------------- strict resolution

  /** The inline parse of App/AppT1.py and App/AppT7.py: like `LenientRange`, except that
      text `int()` rejects is not recovered but stops generation. */
  function StrictRange(text: string, total: int): (r: Result<VerseRange>)
    ensures r.Ok? ==> r.value.start >= 1
    ensures r.Ok? && total >= 0 ==> r.value.end >= 0
    ensures r.Ok? && total >= 1 ==> 1 <= r.value.start <= r.value.end <= total
    ensures r.Err? ==> r.failure == MalformedNumber
  {
    if Strip(text) == [] then Ok(VerseRange(1, total))
    else
      match RangeNumbers(text)
      case None => Err(MalformedNumber)
      case Some((a, b)) => Ok(Ordered(Clamp(a, total), Clamp(b, total)))
  }

  /** The strict and the lenient resolvers agree wherever the strict one succeeds; where it
      fails, the lenient one falls back to the whole chapter. */
  lemma StrictAgreesWithLenient(text: string, total: int)
    ensures StrictRange(text, total).Ok? ==> LenientRange(text, total) == StrictRange(text, total).value
    ensures StrictRange(text, total).Err? <==> !IsBlank(text) && RangeNumbers(text).None?
    ensures StrictRange(text, total).Err? ==> LenientRange(text, total) == VerseRange(1, total)
  {
    StripEmptyIffBlank(text);
  }

  /** "-3" is an error for the strict resolver. */
  lemma StrictLeadingDash(rest: string, total: int)
    ensures StrictRange("-" + rest, total) == Err(MalformedNumber)
  {
    var text := "-" + rest;
    assert text[0] == '-' && !IsSpace('-');
    NotBlankWith(text, 0);
    SplitAtFirst("", '-', rest);
    assert "" + "-" + rest == text;
  }

  // ---------------------------------------------------------------- two-part resolution

  /** `start, end = map(int, text.split("-"))`: exactly two parts, both integers. */
  function PairNumbers(text: string): Option<(int, int)>
  {
    var parts := Split(text, '-');
    if |parts| != 2 then None
    else
      match (ParseInt(parts[0]), ParseInt(parts[1]))
      case (Some(a), Some(b)) => Some((a, b))
      case _ => None
  }

  /** The parse of App/AppT5.py: blank or anything but two integers means the whole
      chapter; then `start` is only raised to 1 and `end` only lowered to `total`, with no
      swap. */
  function TwoPartRange(text: string, total: int): (r: VerseRange)
    ensures r.start >= 1 && r.end <= total
  {
    var (a, b) :=
      if Strip(text) == [] then (1, total)
      else
        match PairNumbers(text)
        case None => (1, total)
        case Some(p) => p;
    VerseRange(Max(1, a), Min(total, b))
  }

  /** "a-b": `start` raised to 1, `end` lowered to `total`, and an inverted pair stays
      inverted. */
  lemma TwoPartPair(a: int, b: int, total: int)
    requires a >= 0 && b >= 0
    ensures TwoPartRange(IntToString(a) + "-" + IntToString(b), total)
            == VerseRange(Max(1, a), Min(total, b))
  {
    PairText(a, b);
    SplitPair(IntToString(a), '-', IntToString(b));
    TwoPartOfNumbers(IntToString(a) + "-" + IntToString(b), total, a, b);
  }

  lemma TwoPartOfNumbers(text: string, total: int, a: int, b: int)
    requires Strip(text) != [] && PairNumbers(text) == Some((a, b))
    ensures TwoPartRange(text, total) == VerseRange(Max(1, a), Min(total, b))
  {
  }

  /** A single number (no '-') is not two parts: the whole chapter. */
  lemma TwoPartSingle(text: string, total: int)
    requires '-' !in text && total >= 1
    ensures TwoPartRange(text, total) == VerseRange(1, total)
  {
    SplitNoSep(text, '-');
  }

  /** Three or more parts: the whole chapter. */
  lemma TwoPartThree(a: string, b: string, rest: string, total: int)
    requires '-' !in a && '-' !in b && total >= 1
    ensures TwoPartRange(a + "-" + b + "-" + rest, total) == VerseRange(1, total)
  {
    SplitAtFirst(a, '-', b + "-" + rest);
    SplitAtFirst(b, '-', rest);
    assert a + "-" + b + "-" + rest == a + "-" + (b + "-" + rest);
  }

  /** Blank text: the whole chapter. */
  lemma TwoPartBlank(text: string, total: int)
    requires IsBlank(text) && total >= 1
    ensures TwoPartRange(text, total) == VerseRange(1, total)
  {
    StripEmptyIffBlank(text);
  }

  // ---------------------------------------------------------------- chapter number

  const MaxSurah: int := 114

  /** A validated Flask form. */
  datatype Request = Request(surah: int, reciter: string, background: string)

  /** The surah field read as an integer and checked to lie in 1..114, with every failure
      caught: a missing field and any text `int()` rejects or out of range become `None`. */
  function SurahField(field: Option<string>): (r: Option<int>)
    ensures r.Some? ==> 1 <= r.value <= MaxSurah
  {
    if field.None? then None
    else
      match ParseInt(field.value)
      case Some(n) => if 1 <= n <= MaxSurah then Some(n) else None
      case None => None
  }

  /** The validation at the top of the Flask handlers: the chapter, then the reciter, then
      the background; each failure answers 400. */
  function ValidateRequest(surah: Option<string>, reciter: Option<string>,
                           background: Option<string>, reciters: seq<string>,
                           backgrounds: seq<string>): (r: Result<Request>)
    ensures r.Ok? <==> SurahField(surah).Some? && reciter.Some? && reciter.value in reciters
                       && background.Some? && background.value in backgrounds
    ensures r.Ok? ==> r.value == Request(SurahField(surah).value, reciter.value, background.value)
    ensures r.Err? ==> HttpStatus(r.failure) == 400
    ensures r == Err(InvalidSurah) <==> SurahField(surah).None?
    ensures r == Err(InvalidReciter) <==>
              SurahField(surah).Some? && (reciter.None? || reciter.value !in reciters)
  {
    match SurahField(surah)
    case None => Err(InvalidSurah)
    case Some(n) =>
      if reciter.None? || reciter.value !in reciters then Err(InvalidReciter)
      else if background.None? || background.value !in backgrounds then Err(InvalidBackground)
      else Ok(Request(n, reciter.value, background.value))
  }

  /** Every chapter number 1..114 written out in decimal passes the chapter check. */
  lemma SurahFieldAccepts(n: int)
    requires 1 <= n <= MaxSurah
    ensures SurahField(Some(IntToString(n))) == Some(n)
  {
    ParseIntToString(n);
  }

  /** The number before the first '.' of a chapter label, surrounding spaces ignored. */
  function LabelNumber(caption: string): Result<int>
  {
    match ParseInt(Strip(Split(caption, '.')[0]))
    case None => Err(MalformedNumber)
    case Some(n) => Ok(n)
  }

  /** A label "N. Name" yields N, whatever the name (dots in it included). */
  lemma LabelNumberOfLabel(n: int, name: string)
    ensures LabelNumber(IntToString(n) + ". " + name) == Ok(n)
  {
    var x := IntToString(n);
    IntToStringHasNo(n, '.');
    SplitAtFirst(x, '.', " " + name);
    assert x + ". " + name == x + "." + (" " + name);
    IntToStringStrips(n);
    ParseIntToString(n);
  }

  // ---------------------------------------------------------------- chapter names

  /** One line of the chapter list, already stripped: the text after its first '.',
      stripped, or the whole line when it has no '.'. */
  function SurahName(line: string): string
  {
    if '.' in line then Strip(AfterFirst(line, '.')) else line
  }

  /** The names read from the chapter list: blank lines skipped, each other line
      stripped and reduced to its name. */
  function SurahNamesOf(lines: seq<string>): seq<string>
  {
    Gather(NameOfLine, lines, |lines|)
  }

  /** What `f` makes of each of the first j lines, one after the other. */
  function Gather(f: string -> seq<string>, lines: seq<string>, j: int): seq<string>
    requires 0 <= j <= |lines|
  {
    if j == 0 then [] else Gather(f, lines, j - 1) + f(lines[j - 1])
  }

  /** What one line adds to the names: nothing when it is blank, its name otherwise. */
  function NameOfLine(line: string): seq<string>
  {
    var stripped := Strip(line);
    if stripped == [] then [] else [SurahName(stripped)]
  }

  /** The loop that reads the chapter list into `surah_names`. */
  method ReadSurahNames(lines: seq<string>) returns (names: seq<string>)
    ensures names == SurahNamesOf(lines)
  {
    names := [];
    for i := 0 to |lines|
      invariant names == Gather(NameOfLine, lines, i)
    {
      var line := Strip(lines[i]);
      NamesNextLine(lines, i, names);
      if line != [] {
        names := names + [SurahName(line)];
      }
    }
  }

  /** Reading line i after the names of the lines before it skips it when it is blank
      and adds its name otherwise. */
  lemma NamesNextLine(lines: seq<string>, i: int, names: seq<string>)
    requires 0 <= i < |lines| && names == Gather(NameOfLine, lines, i)
    ensures var line := Strip(lines[i]);
            Gather(NameOfLine, lines, i + 1) == if line == [] then names else names + [SurahName(line)]
  {
  }

  /** A line of the chapter list in its usual form, "N. Name". */
  function NumberedLine(n: int, name: string): string
  {
    IntToString(n) + ". " + name
  }

  /** A name with no surrounding whitespace. */
  predicate PlainName(name: string)
  {
    name != [] && Strip(name) == name
  }

  /** The name of a numbered line "N. Name" is Name, when Name is non-empty and has no
      surrounding whitespace; stripping leaves such a line as it is. */
  lemma NameOfNumberedLine(n: int, name: string)
    requires PlainName(name)
    ensures NumberedLine(n, name) != []
    ensures Strip(NumberedLine(n, name)) == NumberedLine(n, name)
    ensures SurahName(NumberedLine(n, name)) == name
  {
    var x := IntToString(n);
    var line := x + ". " + name;
    IntToStringStrips(n);
    assert line[0] == x[0];
    assert line[|line| - 1] == name[|name| - 1];
    StripUnchanged(line);
    IntToStringHasNo(n, '.');
    assert line == x + "." + (" " + name);
    assert '.' in line by { assert line[|x|] == '.'; }
    var r := AfterFirst(line, '.');
    var a :| '.' !in a && line == a + "." + r;
    SeparatedEqual(a, r, x, " " + name, '.');
    StripLeadingSpace(' ', name);
  }

  /** A chapter list of numbered lines "N. Name" yields exactly the names, in order. */
  lemma NamesOfNumberedLines(lines: seq<string>, nums: seq<int>, names: seq<string>)
    requires |lines| == |nums| == |names|
    requires forall i :: 0 <= i < |lines| ==> lines[i] == NumberedLine(nums[i], names[i])
    requires forall i :: 0 <= i < |names| ==> PlainName(names[i])
    ensures SurahNamesOf(lines) == names
  {
    forall i | 0 <= i < |lines|
      ensures CleanLineOf(lines[i], names[i])
    {
      NameOfNumberedLine(nums[i], names[i]);
    }
    NamesOfCleanLines(lines, names);
  }

  lemma CleanLineName(line: string, name: string)
    requires CleanLineOf(line, name)
    ensures NameOfLine(line) == [name]
  {
  }

  /** A line that stripping leaves alone and whose name is given. */
  predicate CleanLineOf(line: string, name: string)
  {
    line != [] && Strip(line) == line && SurahName(line) == name
  }

  lemma NamesOfCleanLines(lines: seq<string>, names: seq<string>)
    requires |lines| == |names|
    requires forall i :: 0 <= i < |lines| ==> CleanLineOf(lines[i], names[i])
    ensures SurahNamesOf(lines) == names
  {
    forall i | 0 <= i < |lines|
      ensures NameOfLine(lines[i]) == [names[i]]
    {
      CleanLineName(lines[i], names[i]);
    }
    GatherSingles(NameOfLine, lines, names, |lines|);
    assert names[..|names|] == names;
  }

  /** Lines that each add one given name yield, over the first j, the first j names. */
  lemma {:induction false} GatherSingles(f: string -> seq<string>, lines: seq<string>,
                                         names: seq<string>, j: int)
    requires |lines| == |names| && 0 <= j <= |lines|
    requires forall i :: 0 <= i < |lines| ==> f(lines[i]) == [names[i]]
    ensures Gather(f, lines, j) == names[..j]
  {
    if j > 0 {
      GatherSingles(f, lines, names, j - 1);
      PrefixGrows(names, j - 1);
    }
  }

  lemma PrefixGrows(s: seq<string>, i: int)
    requires 0 <= i < |s|
    ensures s[..i + 1] == s[..i] + [s[i]]
  {
  }

  /** A last line that strips to a non-empty line adds its name after the others. */
  lemma NamesOfLast(lines: seq<string>, name: string)
    requires lines != [] && Strip(lines[|lines| - 1]) == lines[|lines| - 1]
    requires lines[|lines| - 1] != [] && SurahName(lines[|lines| - 1]) == name
    ensures SurahNamesOf(lines) == SurahNamesOf(lines[..|lines| - 1]) + [name]
  {
    var k := |lines| - 1;
    GatherFewer(NameOfLine, lines, k, k);
    CleanLineName(lines[k], name);
  }

  /** Lines past the j-th do not change the names of the first j. */
  lemma {:induction false} GatherFewer(f: string -> seq<string>, lines: seq<string>, k: int, j: int)
    requires 0 <= j <= k <= |lines|
    ensures Gather(f, lines[..k], j) == Gather(f, lines, j)
  {
    if j > 0 {
      GatherFewer(f, lines, k, j - 1);
      assert lines[..k][j - 1] == lines[j - 1];
    }
  }

  /** `surah_options`: option i is labelled with the zero-padded number i+1 and the name,
      and carries the value i+1. */
  function SurahOptions(names: seq<string>): seq<(string, int)>
  {
    seq(|names|, i requires 0 <= i < |names| => (Pad3(i + 1) + " - " + names[i], i + 1))
  }

  /** Each option's value is its position plus one, its label starts with that number
      in three digits and ends with the chapter's name. */
  lemma SurahOptionLabel(names: seq<string>, i: int)
    requires 0 <= i < |names| < 1000
    ensures |SurahOptions(names)| == |names|
    ensures SurahOptions(names)[i].1 == i + 1
    ensures ParseInt(SurahOptions(names)[i].0[..3]) == Some(i + 1)
    ensures SurahOptions(names)[i].0[6..] == names[i]
  {
    var caption := SurahOptions(names)[i].0;
    Pad3Width(i + 1);
    assert caption[..3] == Pad3(i + 1);
    Pad3Parses(i + 1);
  }

  /** The chapter the option at position `choice` of the list read from `lines` selects. */
  function Chosen(lines: seq<string>, choice: int): (n: int)
    requires 0 <= choice < |SurahNamesOf(lines)|
    ensures n == choice + 1
  {
    SurahOptions(SurahNamesOf(lines))[choice].1
  }

  /** A chapter record of chapters.json: `id`, `name`, `total_verses`. */
  datatype ChapterInfo = ChapterInfo(id: int, name: string, totalVerses: nat)

  /** The position of the first record with that id, or the number of records when none
      has it. */
  function FirstIndexWithId(chapters: seq<ChapterInfo>, id: int): (k: int)
    ensures 0 <= k <= |chapters|
    ensures forall j :: 0 <= j < k ==> chapters[j].id != id
    ensures k < |chapters| ==> chapters[k].id == id
  {
    if chapters == [] then 0
    else if chapters[0].id == id then 0
    else 1 + FirstIndexWithId(chapters[1..], id)
  }

  /** The first record with that id; `None` stands for the StopIteration raised when there
      is none. */
  function FirstWithId(chapters: seq<ChapterInfo>, id: int): (r: Option<ChapterInfo>)
    ensures r.None? <==> forall k :: 0 <= k < |chapters| ==> chapters[k].id != id
    ensures r.Some? ==> r.value.id == id
    ensures r.Some? ==> exists k :: 0 <= k < |chapters| && chapters[k] == r.value &&
                                    forall j :: 0 <= j < k ==> chapters[j].id != id
  {
    var k := FirstIndexWithId(chapters, id);
    if k < |chapters| then Some(chapters[k]) else None
  }

  /** The table from lower-cased chapter name to id: later records overwrite earlier ones
      with the same lower-cased name. */
  function NameToId(chapters: seq<ChapterInfo>): map<string, int>
  {
    if chapters == [] then map[]
    else
      var last := chapters[|chapters| - 1];
      NameToId(chapters[..|chapters| - 1])[Lower(last.name) := last.id]
  }

  /** The table holds exactly the lower-cased names of the records. */
  lemma {:induction false} NameToIdKeys(chapters: seq<ChapterInfo>, key: string)
    ensures key in NameToId(chapters) <==>
              exists i :: 0 <= i < |chapters| && Lower(chapters[i].name) == key
  {
    if chapters != [] {
      var k := |chapters| - 1;
      NameToIdKeys(chapters[..k], key);
      if exists i :: 0 <= i < |chapters| && Lower(chapters[i].name) == key {
        var i :| 0 <= i < |chapters| && Lower(chapters[i].name) == key;
        if i < k { assert chapters[..k][i] == chapters[i]; }
      }
      if exists i :: 0 <= i < k && Lower(chapters[..k][i].name) == key {
        var i :| 0 <= i < k && Lower(chapters[..k][i].name) == key;
        assert chapters[i] == chapters[..k][i];
      }
    }
  }

  /** A name maps to the id of the LAST record carrying that name. */
  lemma {:induction false} NameToIdLast(chapters: seq<ChapterInfo>, i: int)
    requires 0 <= i < |chapters|
    requires forall j :: i < j < |chapters| ==> Lower(chapters[j].name) != Lower(chapters[i].name)
    ensures Lower(chapters[i].name) in NameToId(chapters)
    ensures NameToId(chapters)[Lower(chapters[i].name)] == chapters[i].id
  {
    var k := |chapters| - 1;
    if i < k {
      var prefix := chapters[..k];
      assert prefix[i] == chapters[i];
      forall j | i < j < |prefix|
        ensures Lower(prefix[j].name) != Lower(prefix[i].name)
      {
        assert prefix[j] == chapters[j];
      }
      NameToIdLast(prefix, i);
    }
  }

  /** The chapter text box of Archives/appV2.py: empty text selects nothing; all-digit
      text is read as a decimal number; other text is looked up, lower-cased, in the name table, and an
      unknown name stops with an error. */
  function ResolveSurah(input: string, names: map<string, int>): Result<Option<int>>
  {
    if input == [] then Ok(None)
    else if IsDigits(input) then
      match ParseInt(input)
      case Some(n) => Ok(Some(n))
      case None => Err(UnknownSurahName)
    else if Lower(input) in names then Ok(Some(names[Lower(input)]))
    else Err(UnknownSurahName)
  }

  /** Generation runs only for a selected, non-zero chapter number. */
  predicate Generates(r: Result<Option<int>>)
  {
    r.Ok? && r.value.Some? && r.value.value != 0
  }

  /** All-digit input resolves to its integer, leading zeros allowed. */
  lemma ResolveDigits(input: string, names: map<string, int>)
    requires IsDigits(input)
    ensures ResolveSurah(input, names) == Ok(Some(DigitsValue(input)))
  {
    ParseDigits(input);
  }

  /** Other non-empty input resolves through the name table built from the chapter
      records, case-insensitively, to the id of the last record of that name; a name no
      record carries is an error. */
  lemma ResolveName(input: string, chapters: seq<ChapterInfo>)
    requires input != [] && !IsDigits(input)
    ensures ResolveSurah(input, NameToId(chapters)).Err? <==>
              forall i :: 0 <= i < |chapters| ==> Lower(chapters[i].name) != Lower(input)
    ensures forall i :: 0 <= i < |chapters| && Lower(chapters[i].name) == Lower(input)
              && (forall j :: i < j < |chapters| ==> Lower(chapters[j].name) != Lower(input))
              ==> ResolveSurah(input, NameToId(chapters)) == Ok(Some(chapters[i].id))
  {
    NameToIdKeys(chapters, Lower(input));
    forall i | 0 <= i < |chapters| && Lower(chapters[i].name) == Lower(input)
              && (forall j :: i < j < |chapters| ==> Lower(chapters[j].name) != Lower(input))
      ensures ResolveSurah(input, NameToId(chapters)) == Ok(Some(chapters[i].id))
    {
      NameToIdLast(chapters, i);
    }
  }

  /** Empty input and the input "0" both leave generation off. */
  lemma NoGenerationForEmptyOrZero(names: map<string, int>)
    ensures !Generates(ResolveSurah("", names))
    ensures !Generates(ResolveSurah("0", names))
  {
    ResolveDigits("0", names);
    assert DigitsValue("0") == DigitsValue("0"[..0]) * 10 + DigitValue('0');
  }
}
