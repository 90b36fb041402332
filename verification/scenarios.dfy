/** Concrete inputs that pin down behaviour the general lemmas leave
    implicit: where the two versions of the parser disagree, how a repeated
    label cuts the task name short, and which lines let a bullet character
    survive the clean-up. Each input is a parameter fixed by the
    precondition, and the evaluation is spelled out step by step. */
module Scenarios {
  import opened Wrappers
  import opened Text
  import opened Parser

  /** `strip()` from its two halves. */
  lemma StripOf(s: string, l: string, r: string)
    requires TrimLeft(s) == l && TrimRight(l) == r
    ensures Strip(s) == r
  {
  }

  /** `lstrip('*- ')` leaves a line alone that does not start with a bullet
      character. */
  lemma LStripNone(s: string)
    requires |s| > 0 && s[0] != '*' && s[0] != '-' && s[0] != ' '
    ensures LStripChars(s, Bullets) == s
  {
    assert s[0] !in Bullets;
  }

  /** `lstrip('*- ')` removes a leading bullet character and goes on. */
  lemma LStripOne(s: string)
    requires |s| > 0 && (s[0] == '*' || s[0] == '-' || s[0] == ' ')
    ensures LStripChars(s, Bullets) == LStripChars(s[1..], Bullets)
  {
    assert s[0] in Bullets;
  }

  /** The last two clean-up steps keep a first character that is neither
      whitespace nor `(`. */
  lemma HeadKeepsFirst(s: string)
    requires |s| > 0 && s[0] != '(' && !IsSpace(s[0])
    ensures var c := Strip(Split(s, "(")[0]); |c| > 0 && c[0] == s[0]
  {
    var h := Split(s, "(")[0];
    SplitHead(s, "(");
    assert !OccursAt(s, "(", 0) by {
      assert s[0..1][0] == s[0];
    }
    assert h[0] == s[..|h|][0];
    StripKeepsFirst(h);
  }

  /** index.py: the line `-<tab>-Sponge` is unchanged by the per-line
      `strip()`. */
  lemma BulletAfterTabStripped(line: string)
    requires line == "-\t-Sponge"
    ensures Strip(line) == line
  {
    assert !IsSpace(line[0]) && !IsSpace(line[|line| - 1]);
    assert TrimLeft(line) == line;
    assert TrimRight(line) == line;
    StripOf(line, line, line);
  }

  /** `lstrip('*- ')` of `-<tab>-Sponge` removes only the first `-`. */
  lemma BulletAfterTabLStrip(line: string)
    requires line == "-\t-Sponge"
    ensures LStripChars(line, Bullets) == line[1..]
  {
    LStripOne(line);
    var r := line[1..];
    assert r[0] == '\t';
    LStripNone(r);
  }

  /** `strip()` of `<tab>-Sponge` removes the tab. */
  lemma TabStrip(r: string)
    requires r == "\t-Sponge"
    ensures Strip(r) == r[1..]
  {
    var t := r[1..];
    assert t == "-Sponge";
    assert IsSpace(r[0]) && !IsSpace(t[0]) && !IsSpace(t[|t| - 1]);
    assert TrimLeft(r) == t;
    assert TrimRight(t) == t;
    StripOf(r, t, t);
  }

  /** index.py: `-<tab>-Sponge` loses only its first `-` to `lstrip('*- ')`,
      and the tab then goes to `strip()`: the item name starts with `-`. */
  lemma BulletAfterTab(line: string)
    requires line == "-\t-Sponge"
    ensures var c := Clean(line); |c| > 0 && c[0] == '-'
  {
    BulletAfterTabLStrip(line);
    var r := line[1..];
    assert r == "\t-Sponge";
    TabStrip(r);
    var t := r[1..];
    assert t[0] == '-';
    HeadKeepsFirst(t);
  }

  /** main.py: the raw line `<tab>- Sponge` starts with a tab, which
      `lstrip('*- ')` keeps; `strip()` then exposes the bullet and the item
      name starts with `-`. */
  lemma IndentedBullet(line: string)
    requires line == "\t- Sponge"
    ensures var c := Clean(line); |c| > 0 && c[0] == '-'
  {
    LStripNone(line);
    var t := line[1..];
    assert t == "- Sponge";
    assert IsSpace(line[0]) && !IsSpace(t[0]);
    assert TrimLeft(line) == t;
    StripOf(line, t, t);
    HeadKeepsFirst(t);
  }

  /** An indented label is stripped to a labelled line by index.py. */
  lemma IndentedLabelStripped(indented: string)
    requires indented == " Task Name: Mop"
    ensures Strip(indented) == "Task Name: Mop"
  {
    var line := indented[1..];
    assert line == "Task Name: Mop";
    assert IsSpace(indented[0]) && !IsSpace(line[0]) && !IsSpace(line[|line| - 1]);
    assert TrimLeft(indented) == line;
    assert TrimRight(line) == line;
    StripOf(indented, line, line);
  }

  /** `strip()` of a string with one leading whitespace character and none
      trailing. */
  lemma StripOneSpace(s: string)
    requires |s| > 1 && IsSpace(s[0]) && !IsSpace(s[1]) && !IsSpace(s[|s| - 1])
    ensures Strip(s) == s[1..]
  {
    assert TrimLeft(s[1..]) == s[1..];
    assert TrimRight(s[1..]) == s[1..];
    StripOf(s, s[1..], s[1..]);
  }

  /** A labelled line too short to hold the label twice yields the whole
      stripped remainder as the task name. */
  lemma LabelOnce(v: Version, line: string, request: string)
    requires StartsWith(line, TaskLabel) && |line| < 2 * |TaskLabel|
    ensures TaskName(v, [line], request) == Strip(line[|TaskLabel|..])
  {
    TaskNameFromFirstLabel(v, [line], request, 0);
    assert IndexOf(line[|TaskLabel|..], TaskLabel) == None;
  }

  /** index.py reads the name off the stripped label line. */
  lemma IndentedLabelCurrent(line: string, request: string)
    requires line == "Task Name: Mop"
    ensures TaskName(Current, [line], request) == "Mop"
  {
    assert StartsWith(line, TaskLabel);
    LabelOnce(Current, line, request);
    var rest := line[|TaskLabel|..];
    assert rest == " Mop";
    StripOneSpace(rest);
    assert rest[1..] == "Mop";
  }

  /** main.py tests the raw, indented line and falls back to "Untitled Task". */
  lemma IndentedLabelLegacy(indented: string, request: string)
    requires indented == " Task Name: Mop"
    ensures TaskName(Legacy, [indented], request) == LegacyFallback
  {
    assert indented[0] != TaskLabel[0];
    TaskNameFallback(Legacy, [indented], request);
  }

  /** The label occurs again three characters into ` A Task Name: B`. */
  lemma SecondLabelAt(rest: string)
    requires rest == " A Task Name: B"
    ensures IndexOf(rest, TaskLabel) == Some(3)
  {
    assert rest[0] != TaskLabel[0] && rest[1] != TaskLabel[0] && rest[2] != TaskLabel[0];
    assert !OccursAt(rest, TaskLabel, 0) && !OccursAt(rest, TaskLabel, 1) && !OccursAt(rest, TaskLabel, 2);
    assert OccursAt(rest, TaskLabel, 3);
  }

  /** `strip()` of ` A ` is `A`. */
  lemma StripA(field: string)
    requires field == " A "
    ensures Strip(field) == "A"
  {
    var name := field[1..];
    assert name == "A ";
    assert TrimLeft(field) == name;
    assert name[..1] == "A";
    assert TrimRight(name[..1]) == "A";
    StripOf(field, name, "A");
  }

  /** `split("Task Name:")[1]` stops at the second occurrence of the label:
      the task name of `Task Name: A Task Name: B` is `A`. */
  lemma SecondLabelEndsName(v: Version, line: string, request: string)
    requires line == "Task Name: A Task Name: B"
    ensures TaskName(v, [line], request) == "A"
  {
    assert StartsWith(line, TaskLabel);
    TaskNameFromFirstLabel(v, [line], request, 0);
    var rest := line[|TaskLabel|..];
    assert rest == " A Task Name: B";
    SecondLabelAt(rest);
    assert rest[..3] == " A ";
    StripA(rest[..3]);
  }
}
