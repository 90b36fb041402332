/** The response parser of `process_request`: turns the generated text into
    a task name and the ordered list of item names. Both versions of the
    endpoint are modelled; they differ in whether lines are stripped before
    the label test and in the fallback task name. */
module Parser {
  import opened Wrappers
  import opened Seqs
  import opened Text

  /** `Current` is the tiered endpoint of index.py, `Legacy` the single-tier
      endpoint of main.py. */
  datatype Version = Current | Legacy

  datatype Parsed = Parsed(taskName: string, itemNames: seq<string>)

  const TaskLabel: string := "Task Name:"
  const ItemsKeyword: string := "items"
  const Bullets: string := "*- "
  const LegacyFallback: string := "Untitled Task"

  /** The lines the parser scans: index.py strips every line first, main.py
      works on the raw lines of `response_text.split('\n')`. */
  function Prepared(v: Version, text: string): (lines: seq<string>)
    ensures |lines| == |Split(text, "\n")|
    ensures v.Current? ==> forall i :: 0 <= i < |lines| ==> lines[i] == Strip(Split(text, "\n")[i])
    ensures v.Legacy? ==> lines == Split(text, "\n")
  {
    var raw := Split(text, "\n");
    match v
    case Current => seq(|raw|, i requires 0 <= i < |raw| => Strip(raw[i]))
    case Legacy => raw
  }

  /** The prepared lines are the pieces of the text between newlines, one
      per piece and in order, so no line holds a newline. main.py's raw
      lines rebuild the text when joined with newlines; each of index.py's
      lines is its piece with the surrounding whitespace cut off and no
      whitespace left at either end. */
  lemma PreparedPieces(v: Version, text: string)
    ensures var lines := Prepared(v, text);
      forall i :: 0 <= i < |lines| ==> !Contains(lines[i], "\n")
    ensures v.Legacy? ==> Join(Prepared(v, text), "\n") == text
    ensures v.Current? ==> var lines := Prepared(v, text);
      forall i :: 0 <= i < |lines| ==> StrippedFrom(Split(text, "\n")[i], lines[i])
    ensures v.Current? ==> var lines := Prepared(v, text);
      forall i :: 0 <= i < |lines| && |lines[i]| > 0 ==> !IsSpace(lines[i][0]) && !IsSpace(lines[i][|lines[i]| - 1])
  {
    var lines := Prepared(v, text);
    SplitPartsFree(text, "\n");
    if v.Legacy? {
      SplitJoin(text, "\n");
    } else {
      forall i | 0 <= i < |lines|
        ensures !Contains(lines[i], "\n")
        ensures StrippedFrom(Split(text, "\n")[i], lines[i])
        ensures |lines[i]| > 0 ==> !IsSpace(lines[i][0]) && !IsSpace(lines[i][|lines[i]| - 1])
      {
        StrippedPiece(Split(text, "\n")[i], lines[i]);
      }
    }
  }

  /** A piece free of newlines stays free of them once stripped. */
  lemma StrippedPiece(piece: string, line: string)
    requires !Contains(piece, "\n") && line == Strip(piece)
    ensures !Contains(line, "\n") && StrippedFrom(piece, line)
    ensures |line| > 0 ==> !IsSpace(line[0]) && !IsSpace(line[|line| - 1])
  {
    var a :| StrippedAt(piece, line, a);
    SliceFree(piece, "\n", a, a + |line|);
  }

  /** The task name when no line carries the label. */
  function Fallback(v: Version, request: string): string {
    match v
    case Current => request
    case Legacy => LegacyFallback
  }

  /** The text after the label up to its next occurrence: `line.split("Task Name:")[1]`.
      A line that starts with the label always splits into at least two pieces. */
  function LabelField(line: string): (f: string)
    requires StartsWith(line, TaskLabel)
    ensures StartsWith(line[|TaskLabel|..], f) && !Contains(f, TaskLabel)
    ensures |f| < |line| - |TaskLabel| ==> OccursAt(line[|TaskLabel|..], TaskLabel, |f|)
  {
    SplitSecond(line, TaskLabel);
    Split(line, TaskLabel)[1]
  }

  /** Index of the first line that starts with the label. */
  function TaskLine(lines: seq<string>): (r: Option<nat>)
    ensures r.Some? ==> r.value < |lines| && StartsWith(lines[r.value], TaskLabel)
    ensures r.Some? ==> forall j :: 0 <= j < r.value ==> !StartsWith(lines[j], TaskLabel)
    ensures r.None? <==> forall j :: 0 <= j < |lines| ==> !StartsWith(lines[j], TaskLabel)
  {
    TaskLineFrom(lines, 0)
  }

  function TaskLineFrom(lines: seq<string>, k: nat): (r: Option<nat>)
    ensures r.Some? ==> k <= r.value < |lines| && StartsWith(lines[r.value], TaskLabel)
    ensures r.Some? ==> forall j :: k <= j < r.value ==> !StartsWith(lines[j], TaskLabel)
    ensures r.None? <==> forall j :: k <= j < |lines| ==> !StartsWith(lines[j], TaskLabel)
    decreases |lines| - k
  {
    if k >= |lines| then None
    else if StartsWith(lines[k], TaskLabel) then Some(k)
    else TaskLineFrom(lines, k + 1)
  }

  /** The header test: index.py lower-cases an already stripped line,
      main.py lower-cases and then strips the raw line. */
  predicate IsHeader(v: Version, line: string) {
    match v
    case Current => StartsWith(Lower(line), ItemsKeyword)
    case Legacy => StartsWith(Strip(Lower(line)), ItemsKeyword)
  }

  /** Index of the first items header. */
  function HeaderLine(v: Version, lines: seq<string>): (r: Option<nat>)
    ensures r.Some? ==> r.value < |lines| && IsHeader(v, lines[r.value])
    ensures r.Some? ==> forall j {:trigger IsHeader(v, lines[j])} :: 0 <= j < r.value ==> !IsHeader(v, lines[j])
    ensures r.None? <==> forall j {:trigger IsHeader(v, lines[j])} :: 0 <= j < |lines| ==> !IsHeader(v, lines[j])
  {
    var marks := HeaderMarks(v, lines);
    FirstTrue(marks)
  }

  function HeaderMarks(v: Version, lines: seq<string>): (marks: seq<bool>)
    ensures |marks| == |lines|
    ensures forall i :: 0 <= i < |lines| ==> marks[i] == IsHeader(v, lines[i])
  {
    seq(|lines|, i requires 0 <= i < |lines| => IsHeader(v, lines[i]))
  }

  /** One item line cleaned up: `line.lstrip('*- ').strip().split('(')[0].strip()`. */
  function Clean(line: string): string {
    Strip(Split(Strip(LStripChars(line, Bullets)), "(")[0])
  }

  /** A cleaned line has no whitespace at either end and no `(`. */
  lemma CleanShape(line: string)
    ensures var c := Clean(line);
      !Contains(c, "(") && (|c| > 0 ==> !IsSpace(c[0]) && !IsSpace(c[|c| - 1]))
  {
    var s := Strip(LStripChars(line, Bullets));
    var h := Split(s, "(")[0];
    SplitHead(s, "(");
    var c := Strip(h);
    var a :| StrippedAt(h, c, a);
    SliceFree(h, "(", a, a + |c|);
  }

  /** A cleaned line starts with `*` or `-` only when the bullet run that
      `lstrip('*- ')` removes is followed by whitespace other than a space
      (a tab, say), which the following `strip()` then removes. */
  lemma CleanFirstChar(line: string)
    ensures var c := Clean(line); var r := LStripChars(line, Bullets);
      |c| > 0 && (c[0] == '*' || c[0] == '-') ==> |r| > 0 && IsSpace(r[0])
  {
    var r := LStripChars(line, Bullets);
    if |r| > 0 && !IsSpace(r[0]) {
      StripKeepsFirst(r);
      var s := Strip(r);
      var h := Split(s, "(")[0];
      SplitHead(s, "(");
      if |h| > 0 {
        assert h[0] == r[0];
        StripKeepsFirst(h);
      } else {
        assert OccursAt(s, "(", 0);
        assert Clean(line) == Strip(h) == [];
      }
    }
  }

  /** Every line cleaned, in order. */
  function CleanAll(lines: seq<string>): (cs: seq<string>)
    ensures |cs| == |lines|
    ensures forall i :: 0 <= i < |lines| ==> cs[i] == Clean(lines[i])
  {
    seq(|lines|, i requires 0 <= i < |lines| => Clean(lines[i]))
  }

  /** The leading run of non-empty strings. */
  function TakeNonEmpty(cs: seq<string>): (names: seq<string>)
    ensures |names| <= |cs|
    ensures forall k :: 0 <= k < |names| ==> names[k] == cs[k] && names[k] != ""
    ensures |names| < |cs| ==> cs[|names|] == ""
    decreases |cs|
  {
    if |cs| == 0 || cs[0] == "" then [] else [cs[0]] + TakeNonEmpty(cs[1..])
  }

  /** The item lines after the header: cleaned lines in order, stopping at
      (and excluding) the first one that cleans to the empty string. */
  function ScanItems(lines: seq<string>): (names: seq<string>)
    ensures |names| <= |lines|
    ensures forall k :: 0 <= k < |names| ==> names[k] == Clean(lines[k]) && names[k] != ""
    ensures |names| < |lines| ==> Clean(lines[|names|]) == ""
  {
    TakeNonEmpty(CleanAll(lines))
  }

  /** The task name read from the prepared lines: the stripped label field
      of the first labelled line, or the version's fallback. */
  function TaskName(v: Version, lines: seq<string>, request: string): string {
    match TaskLine(lines)
    case Some(i) => Strip(LabelField(lines[i]))
    case None => Fallback(v, request)
  }

  /** The item names read from the prepared lines: the scan after the first
      header, or nothing without one. */
  function ItemNames(v: Version, lines: seq<string>): seq<string> {
    match HeaderLine(v, lines)
    case Some(h) => ScanItems(lines[h + 1..])
    case None => []
  }

  /** The parse step of `process_request`. */
  function Parse(v: Version, text: string, request: string): Parsed {
    var lines := Prepared(v, text);
    Parsed(TaskName(v, lines, request), ItemNames(v, lines))
  }

  /** The task name is the stripped text after the label on the first
      labelled line, up to the label's next occurrence on that line. */
  lemma TaskNameFromFirstLabel(v: Version, lines: seq<string>, request: string, i: nat)
    requires i < |lines| && StartsWith(lines[i], TaskLabel)
    requires forall j :: 0 <= j < i ==> !StartsWith(lines[j], TaskLabel)
    ensures var rest := lines[i][|TaskLabel|..];
      TaskName(v, lines, request)
        == Strip(match IndexOf(rest, TaskLabel) case Some(e) => rest[..e] case None => rest)
  {
    var line := lines[i];
    assert TaskLine(lines) == Some(i);
    assert OccursAt(line, TaskLabel, 0);
    assert IndexOf(line, TaskLabel) == Some(0);
    assert Split(line, TaskLabel)[1] == Split(line[|TaskLabel|..], TaskLabel)[0];
  }

  /** Without a labelled line the task name is the version's fallback. */
  lemma TaskNameFallback(v: Version, lines: seq<string>, request: string)
    requires forall j :: 0 <= j < |lines| ==> !StartsWith(lines[j], TaskLabel)
    ensures TaskName(v, lines, request) == Fallback(v, request)
  {
  }

  /** Without an items header nothing is extracted. */
  lemma ItemsWithoutHeader(v: Version, lines: seq<string>)
    requires forall j {:trigger IsHeader(v, lines[j])} :: 0 <= j < |lines| ==> !IsHeader(v, lines[j])
    ensures ItemNames(v, lines) == []
  {
  }

  /** With the first header at `h`, the item names are the item scan of the
      lines strictly after it (see `ScanItemsFrom` for what the scan keeps). */
  lemma ItemsAfterHeader(v: Version, lines: seq<string>, h: nat)
    requires h < |lines| && IsHeader(v, lines[h])
    requires forall j {:trigger IsHeader(v, lines[j])} :: 0 <= j < h ==> !IsHeader(v, lines[j])
    ensures ItemNames(v, lines) == ScanItems(lines[h + 1..])
  {
    HeaderLineAt(v, lines, h);
  }

  /** The first line passing the header test is the header line. */
  lemma HeaderLineAt(v: Version, lines: seq<string>, h: nat)
    requires h < |lines| && IsHeader(v, lines[h])
    requires forall j {:trigger IsHeader(v, lines[j])} :: 0 <= j < h ==> !IsHeader(v, lines[j])
    ensures HeaderLine(v, lines) == Some(h)
  {
  }

  /** The item scan of the lines from `s` on, stated on the indices of the
      whole: the cleaned lines in order, up to and excluding the first one
      that cleans to the empty string; nothing after that line is kept. */
  lemma ScanItemsFrom(lines: seq<string>, s: nat)
    requires s <= |lines|
    ensures var names := ScanItems(lines[s..]);
      s + |names| <= |lines|
      && (forall k :: 0 <= k < |names| ==> names[k] == Clean(lines[s + k]) && names[k] != "")
      && (s + |names| < |lines| ==> Clean(lines[s + |names|]) == "")
  {
    var after := lines[s..];
    var names := ScanItems(after);
    forall k | 0 <= k < |names|
      ensures names[k] == Clean(lines[s + k])
    {
      assert after[k] == lines[s + k];
    }
    if s + |names| < |lines| {
      assert after[|names|] == lines[s + |names|];
    }
  }

  /** A name as the item scan produces it: non-empty, no `(`, and no
      whitespace at either end. */
  predicate WellFormedName(n: string) {
    n != "" && !Contains(n, "(") && !IsSpace(n[0]) && !IsSpace(n[|n| - 1])
  }

  /** Every name of an item scan is well formed. */
  lemma ScanItemsWellFormed(after: seq<string>)
    ensures forall n :: n in ScanItems(after) ==> WellFormedName(n)
  {
    var names := ScanItems(after);
    forall n | n in names
      ensures WellFormedName(n)
    {
      var k :| 0 <= k < |names| && names[k] == n;
      CleanShape(after[k]);
    }
  }

  /** Every extracted item name is non-empty, has no `(` and no whitespace
      at either end. */
  lemma ItemNamesWellFormed(v: Version, lines: seq<string>)
    ensures forall n :: n in ItemNames(v, lines) ==> WellFormedName(n)
  {
    match HeaderLine(v, lines)
    case None =>
    case Some(h) => ScanItemsWellFormed(lines[h + 1..]);
  }

  /** Every extracted item name has at least one word, so the tiered resolver
      never reaches `words[0]` on an empty word list for it. */
  lemma ItemNamesHaveWords(v: Version, lines: seq<string>)
    ensures forall n :: n in ItemNames(v, lines) ==> |Words(Lower(n))| >= 1
  {
    ItemNamesWellFormed(v, lines);
    forall n | n in ItemNames(v, lines)
      ensures |Words(Lower(n))| >= 1
    {
      assert WellFormedName(n);
      assert !IsSpace(Lower(n)[0]);
      WordsEmpty(Lower(n));
    }
  }
}
