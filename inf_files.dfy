/** Windows driver INF files as archive_win_driver.py reads them: a quote-aware
    test for `=`, the line-by-line section/key/value parser (over lines already
    decoded from the file) and the extraction of the `DriverVer` date and
    version, with `%key%` references resolved from the `[Strings]` section. */
module InfFiles {
  import opened Results
  import opened PyText
  import opened OrderedDicts

  // ---------------------------------------------------------------------------
  // util_equal_sign_in_inf_line
  // ---------------------------------------------------------------------------

  /** Position `j` of `s` holds an `=` outside double quotes: an even number of
      `"` precede it. */
  predicate UnquotedEqualAt(s: string, j: int)
  {
    0 <= j < |s| && s[j] == '=' && Count(s[..j], '"') % 2 == 0
  }

  /** util_equal_sign_in_inf_line: scan the line, toggling a flag at every
      double quote; the line has an equal sign outside quotes exactly when some
      `=` is preceded by an even number of quotes. */
  method EqualSignInLine(s: string) returns (found: bool)
    ensures found <==> exists j :: UnquotedEqualAt(s, j)
  {
    var quote := false;
    for i := 0 to |s|
      invariant quote <==> Count(s[..i], '"') % 2 == 1
      invariant forall j :: 0 <= j < i ==> !UnquotedEqualAt(s, j)
    {
      assert s[..i + 1] == s[..i] + [s[i]];
      CountAppend(s[..i], [s[i]], '"');
      if s[i] == '"' {
        quote := !quote;
      } else if quote {
        continue;
      } else if s[i] == '=' {
        assert UnquotedEqualAt(s, i);
        return true;
      }
    }
    return false;
  }

  /** The same test as a predicate, for use in the specification of the parser. */
  predicate HasUnquotedEqual(s: string)
  {
    exists j :: 0 <= j < |s| && UnquotedEqualAt(s, j)
  }

  // ---------------------------------------------------------------------------
  // The line loop of parse_inf
  // ---------------------------------------------------------------------------

  /** A section holds either keys and values or, when its lines have no `=`,
      the text of those lines. */
  datatype SectionValue = Entries(entries: ODict<string, string>) | Text(text: string)

  /** The parsed file: section name to section value, in order of declaration. */
  type Config = ODict<string, SectionValue>

  /** The exceptions the loop raises, with the index of the offending line:
      content before any section header (`config[None]`), a `[Strings]` line
      without `=` (unpacking `split("=", 1)`), and a key set in a section
      that already holds text (item assignment on a `str`). */
  datatype InfError =
    | ContentOutsideSection(line: nat)
    | MissingEqualsInStrings(line: nat)
    | AssignToText(line: nat)

  /** The parser's state: the dictionary and the current section, if any. */
  datatype ParseState = ParseState(config: Config, section: Option<string>)

  const StringsSection: string := "strings"

  /** The line with its comment dropped: everything from the first `;` on is
      cut, quotes notwithstanding, and white space is stripped. */
  function Clean(line: string): string
  {
    Strip(Split(line, ';')[0])
  }

  /** A cleaned line is the stripped text before the first `;`, and holds no
      `;` and no surrounding white space. */
  lemma CommentDropped(line: string)
    ensures Clean(line) == Strip(if ';' in line then line[..IndexOf(line, ';')] else line)
    ensures ';' !in Clean(line)
    ensures Clean(line) == [] || (!IsSpace(Clean(line)[0]) && !IsSpace(Clean(line)[|Clean(line)| - 1]))
  {
    SplitHead(line, ';');
    var p := Split(line, ';')[0];
    var l := LStrip(p);
    LStripShape(p);
    RStripShape(l);
    assert Clean(line) == RStrip(l);
    if Clean(line) != [] {
      assert Clean(line)[0] == l[0];
    }
  }

  /** `[name]` declares a section (a one-character line cannot both start with
      `[` and end with `]`, so the length bound only makes that explicit). */
  predicate IsHeader(l: string)
  {
    StartsWith(l, "[") && EndsWith(l, "]") && |l| >= 2
  }

  /** The section a header line declares: its inner text, stripped and in lower
      case. */
  function SectionName(l: string): string
    requires IsHeader(l)
  {
    LowerAscii(Strip(l[1..|l| - 1]))
  }

  /** `not value` for a section value: an empty dictionary or empty text. */
  predicate IsEmpty(v: SectionValue)
  {
    match v
    case Entries(e) => e == []
    case Text(t) => t == []
  }

  /** `config[section][key] = value`. */
  function AssignKey(config: Config, section: string, key: string, value: string, idx: nat): Result<Config, InfError>
  {
    if !HasKey(config, section) then Failure(ContentOutsideSection(idx))
    else match Get(config, section)
      case Entries(e) => Success(Put(config, section, Entries(Put(e, key, value))))
      case Text(_) => Failure(AssignToText(idx))
  }

  /** One pass of the loop body on line number `idx`. */
  function Step(st: ParseState, line: string, idx: nat): Result<ParseState, InfError>
  {
    StepOn(st, Clean(line), idx)
  }

  /** The loop body on the cleaned line `l`. */
  function StepOn(st: ParseState, l: string, idx: nat): Result<ParseState, InfError>
  {
    if l == [] then Success(st)
    else if IsHeader(l) then Success(OpenSection(st, SectionName(l)))
    else if st.section == Some(StringsSection) then StringsLine(st, l, idx)
    else if st.section.None? || !HasKey(st.config, st.section.value) then Failure(ContentOutsideSection(idx))
    else if HasUnquotedEqual(l) then KeyLine(st, l, idx)
    else Success(TextLine(st, l))
  }

  /** `[name]`: the section is (re)set to an empty dictionary and becomes current. */
  function OpenSection(st: ParseState, name: string): ParseState
  {
    ParseState(Put(st.config, name, Entries([])), Some(name))
  }

  /** A line of `[Strings]`: split at the first `=`, which must be there. */
  function StringsLine(st: ParseState, l: string, idx: nat): Result<ParseState, InfError>
  {
    match SplitOnce(l, '=')
    case None => Failure(MissingEqualsInStrings(idx))
    case Some((k, v)) =>
      var c :- AssignKey(st.config, StringsSection, Strip(k), Strip(v), idx);
      Success(ParseState(c, st.section))
  }

  /** A line with an unquoted `=` elsewhere: split at the first `=`. */
  function KeyLine(st: ParseState, l: string, idx: nat): Result<ParseState, InfError>
    requires st.section.Some? && '=' in l
  {
    var (k, v) := SplitOnce(l, '=').value;
    var c :- AssignKey(st.config, st.section.value, Strip(k), Strip(v), idx);
    Success(ParseState(c, st.section))
  }

  /** A line without an unquoted `=`: it becomes the text of an empty section,
      is appended to existing text, and is dropped when the section holds keys. */
  function TextLine(st: ParseState, l: string): ParseState
    requires st.section.Some? && HasKey(st.config, st.section.value)
  {
    var sec := st.section.value;
    var cur := Get(st.config, sec);
    if IsEmpty(cur) then ParseState(Put(st.config, sec, Text(l)), st.section)
    else if cur.Text? then ParseState(Put(st.config, sec, Text(cur.text + "\n" + l)), st.section)
    else st
  }

  /** The state after the first `n` lines, or the first error among them. */
  function ParseLines(lines: seq<string>, n: nat): Result<ParseState, InfError>
    requires n <= |lines|
  {
    if n == 0 then Success(ParseState([], None))
    else
      match ParseLines(lines, n - 1)
      case Failure(e) => Failure(e)
      case Success(st) => Step(st, lines[n - 1], n - 1)
  }

  /** parse_inf's loop over the lines, stopping at the first error. */
  method ParseInf(lines: seq<string>) returns (r: Result<Config, InfError>)
    ensures r.Success? <==> ParseLines(lines, |lines|).Success?
    ensures r.Success? ==> r.value == ParseLines(lines, |lines|).value.config
    ensures r.Failure? ==> r.error == ParseLines(lines, |lines|).error
  {
    var st := ParseState([], None);
    for i := 0 to |lines|
      invariant ParseLines(lines, i) == Success(st)
    {
      var next := ParseLine(st, lines[i], i);
      if next.Failure? {
        FailureSticks(lines, i + 1, |lines|);
        return Failure(next.error);
      }
      st := next.value;
    }
    return Success(st.config);
  }

  /** The body of parse_inf's loop for line number `idx`: the line is cleaned,
      skipped when blank, opens a section, sets a key, or adds text to the
      current section. */
  method ParseLine(st: ParseState, rawLine: string, idx: nat) returns (r: Result<ParseState, InfError>)
    ensures r == Step(st, rawLine, idx)
  {
    var config, section := st.config, st.section;
    var line := Clean(rawLine);
    if line == [] {
      return Success(st);
    }
    if IsHeader(line) {
      section := Some(SectionName(line));
      config := Put(config, section.value, Entries([]));
      return Success(ParseState(config, section));
    }
    if section == Some(StringsSection) {
      var parts := SplitOnce(line, '=');
      if parts.None? {
        return Failure(MissingEqualsInStrings(idx));
      }
      var key, value := Strip(parts.value.0), Strip(parts.value.1);
      var updated := AssignKey(config, StringsSection, key, value, idx);
      if updated.Failure? {
        return Failure(updated.error);
      }
      return Success(ParseState(updated.value, section));
    }
    if section.None? || !HasKey(config, section.value) {
      return Failure(ContentOutsideSection(idx));
    }
    var hasEqual := EqualSignInLine(line);
    if hasEqual {
      var parts := SplitOnce(line, '=');
      var updated := AssignKey(config, section.value, Strip(parts.value.0), Strip(parts.value.1), idx);
      if updated.Failure? {
        return Failure(updated.error);
      }
      config := updated.value;
    } else {
      var current := Get(config, section.value);
      if IsEmpty(current) {
        config := Put(config, section.value, Text(line));
      } else if current.Text? {
        config := Put(config, section.value, Text(current.text + "\n" + line));
      }
    }
    return Success(ParseState(config, section));
  }

  /** The first error ends the parse: later lines do not change it. */
  lemma {:induction false} FailureSticks(lines: seq<string>, n: nat, m: nat)
    requires n <= m <= |lines| && ParseLines(lines, n).Failure?
    ensures ParseLines(lines, m) == ParseLines(lines, n)
    decreases m - n
  {
    if n < m {
      FailureSticks(lines, n + 1, m);
    }
  }

  // ---------------------------------------------------------------------------
  // What the parser guarantees
  // ---------------------------------------------------------------------------

  /** The shape of every state the loop reaches: section names are distinct, the
      current section exists, keys within a section are distinct, and text is
      never empty (so an empty section is always an empty dictionary). */
  predicate WellFormed(st: ParseState)
  {
    && DistinctKeys(st.config)
    && (st.section.Some? ==> HasKey(st.config, st.section.value))
    && (forall i :: 0 <= i < |st.config| ==>
          match st.config[i].1
          case Entries(e) => DistinctKeys(e)
          case Text(t) => t != [])
  }

  lemma PutKeepsWellFormed(st: ParseState, name: string, v: SectionValue, section: Option<string>)
    requires WellFormed(st)
    requires section.Some? ==> section.value == name || HasKey(st.config, section.value)
    requires match v
      case Entries(e) => DistinctKeys(e)
      case Text(t) => t != []
    ensures WellFormed(ParseState(Put(st.config, name, v), section))
  {
    PutGet(st.config, name, v);
  }

  lemma AssignKeyKeepsWellFormed(st: ParseState, sec: string, key: string, value: string, idx: nat)
    requires WellFormed(st) && st.section.Some?
    requires AssignKey(st.config, sec, key, value, idx).Success?
    ensures WellFormed(ParseState(AssignKey(st.config, sec, key, value, idx).value, st.section))
  {
    var e := Get(st.config, sec).entries;
    var j := Find(st.config, sec);
    assert st.config[j].1 == Entries(e);
    PutGet(e, key, value);
    PutKeepsWellFormed(st, sec, Entries(Put(e, key, value)), st.section);
  }

  /** Every line keeps the state well formed. */
  lemma StepKeepsWellFormed(st: ParseState, line: string, idx: nat)
    requires WellFormed(st) && Step(st, line, idx).Success?
    ensures WellFormed(Step(st, line, idx).value)
  {
    var l := Clean(line);
    if l == [] {
    } else if IsHeader(l) {
      PutKeepsWellFormed(st, SectionName(l), Entries([]), Some(SectionName(l)));
    } else if st.section == Some(StringsSection) {
      var (k, v) := SplitOnce(l, '=').value;
      AssignKeyKeepsWellFormed(st, StringsSection, Strip(k), Strip(v), idx);
    } else if HasUnquotedEqual(l) {
      var (k, v) := SplitOnce(l, '=').value;
      AssignKeyKeepsWellFormed(st, st.section.value, Strip(k), Strip(v), idx);
    } else {
      TextLineKeepsWellFormed(st, l);
    }
  }

  lemma TextLineKeepsWellFormed(st: ParseState, l: string)
    requires WellFormed(st) && st.section.Some? && HasKey(st.config, st.section.value) && l != []
    ensures WellFormed(TextLine(st, l))
  {
    var sec := st.section.value;
    var cur := Get(st.config, sec);
    if IsEmpty(cur) {
      PutKeepsWellFormed(st, sec, Text(l), st.section);
    } else if cur.Text? {
      PutKeepsWellFormed(st, sec, Text(cur.text + "\n" + l), st.section);
    }
  }

  lemma {:induction false} ParseLinesWellFormed(lines: seq<string>, n: nat)
    requires n <= |lines| && ParseLines(lines, n).Success?
    ensures WellFormed(ParseLines(lines, n).value)
  {
    if n > 0 {
      ParseLinesWellFormed(lines, n - 1);
      StepKeepsWellFormed(ParseLines(lines, n - 1).value, lines[n - 1], n - 1);
    }
  }

  /** Line `i` declares section `name`. */
  predicate Declares(lines: seq<string>, i: int, name: string)
  {
    0 <= i < |lines| && IsHeader(Clean(lines[i])) && SectionName(Clean(lines[i])) == name
  }

  /** The sections of the parsed file are exactly the sections its lines
      declare: no line but a header creates one, and every header does. */
  lemma {:induction false} SectionsAreDeclared(lines: seq<string>, n: nat, name: string)
    requires n <= |lines| && ParseLines(lines, n).Success?
    ensures HasKey(ParseLines(lines, n).value.config, name) <==> exists i :: 0 <= i < n && Declares(lines, i, name)
  {
    if n > 0 {
      var st := ParseLines(lines, n - 1).value;
      SectionsAreDeclared(lines, n - 1, name);
      ParseLinesWellFormed(lines, n - 1);
      StepKeys(st, lines[n - 1], n - 1, name);
      DeclaredBefore(lines, n, name);
    }
  }

  /** The current section, when there is one, was declared by some line. */
  lemma {:induction false} CurrentSectionDeclared(lines: seq<string>, n: nat)
    requires n <= |lines| && ParseLines(lines, n).Success?
    ensures ParseLines(lines, n).value.section.Some? ==>
      exists i :: 0 <= i < n && Declares(lines, i, ParseLines(lines, n).value.section.value)
  {
    if n > 0 {
      var st := ParseLines(lines, n - 1).value;
      CurrentSectionDeclared(lines, n - 1);
      StepSection(st, lines[n - 1], n - 1);
      var st' := ParseLines(lines, n).value;
      if st'.section.Some? {
        var name := st'.section.value;
        DeclaredBefore(lines, n, name);
        if st'.section == st.section {
          assert exists i :: 0 <= i < n - 1 && Declares(lines, i, name);
        } else {
          assert Declares(lines, n - 1, name);
        }
      }
    }
  }

  /** A declaration among the first `n` lines is one among the first `n - 1`,
      or line `n - 1` itself. */
  lemma DeclaredBefore(lines: seq<string>, n: nat, name: string)
    requires 0 < n <= |lines|
    ensures (exists i :: 0 <= i < n && Declares(lines, i, name)) <==>
      (exists i :: 0 <= i < n - 1 && Declares(lines, i, name)) || Declares(lines, n - 1, name)
  {
    if exists i :: 0 <= i < n && Declares(lines, i, name) {
      var i :| 0 <= i < n && Declares(lines, i, name);
      if i < n - 1 {
        assert 0 <= i < n - 1 && Declares(lines, i, name);
      }
    }
    if exists i :: 0 <= i < n - 1 && Declares(lines, i, name) {
      var i :| 0 <= i < n - 1 && Declares(lines, i, name);
      assert 0 <= i < n && Declares(lines, i, name);
    }
    if Declares(lines, n - 1, name) {
      assert 0 <= n - 1 < n && Declares(lines, n - 1, name);
    }
  }

  /** The loop body makes a header's section current and leaves the current
      section alone on every other line. */
  lemma StepSection(st: ParseState, line: string, idx: nat)
    requires Step(st, line, idx).Success?
    ensures var l := Clean(line);
      Step(st, line, idx).value.section ==
        if l != [] && IsHeader(l) then Some(SectionName(l)) else st.section
  {
  }

  lemma StepKeys(st: ParseState, line: string, idx: nat, name: string)
    requires WellFormed(st) && Step(st, line, idx).Success?
    ensures var l := Clean(line);
      HasKey(Step(st, line, idx).value.config, name) <==>
        HasKey(st.config, name) || (IsHeader(l) && SectionName(l) == name)
  {
    var l := Clean(line);
    var r := Step(st, line, idx).value;
    HasKeyIsInKeys(st.config, name);
    HasKeyIsInKeys(r.config, name);
    if l == [] {
    } else if IsHeader(l) {
      RedeclaredSectionIsEmpty(st, line, idx);
    } else if st.section == Some(StringsSection) {
      StringsLineSetsKey(st, line, idx);
    } else if HasUnquotedEqual(l) {
      KeyLineSetsKey(st, line, idx);
    } else {
      TextLineKeys(st, l);
    }
  }

  /** A text line changes the value of the current section only. */
  lemma TextLineKeys(st: ParseState, l: string)
    requires WellFormed(st) && st.section.Some? && HasKey(st.config, st.section.value)
    ensures Keys(TextLine(st, l).config) == Keys(st.config)
  {
    var sec := st.section.value;
    var cur := Get(st.config, sec);
    HasKeyIsInKeys(st.config, sec);
  }

  /** A content line met before any section header is an error: the first
      non-blank line must declare a section. */
  lemma {:induction false} ContentBeforeSectionFails(lines: seq<string>, i: nat)
    requires i < |lines|
    requires forall j :: 0 <= j < i ==> Clean(lines[j]) == []
    requires Clean(lines[i]) != [] && !IsHeader(Clean(lines[i]))
    ensures ParseLines(lines, i + 1) == Failure(ContentOutsideSection(i))
  {
    BlankLinesChangeNothing(lines, 0, i);
  }

  /** A line that is blank once its comment is dropped changes nothing,
      whatever the state. */
  lemma BlankLineKeepsState(st: ParseState, line: string, idx: nat)
    requires Clean(line) == []
    ensures Step(st, line, idx) == Success(st)
  {
  }

  /** A run of blank or comment-only lines, wherever it occurs, leaves the
      parse where it was: the state, or the error met before the run. */
  lemma {:induction false} BlankLinesChangeNothing(lines: seq<string>, m: nat, n: nat)
    requires m <= n <= |lines|
    requires forall j :: m <= j < n ==> Clean(lines[j]) == []
    ensures ParseLines(lines, n) == ParseLines(lines, m)
  {
    if m < n {
      BlankLinesChangeNothing(lines, m, n - 1);
      if ParseLines(lines, n - 1).Success? {
        BlankLineKeepsState(ParseLines(lines, n - 1).value, lines[n - 1], n - 1);
      }
    }
  }

  /** `r` is `st` after `config[sec][key] = value` on a section holding keys:
      the key maps to the value, every other key of the section keeps its
      value, the key order is kept with a new key last, every other section is
      as it was, and the current section stays current. */
  ghost predicate SetsKey(st: ParseState, r: ParseState, sec: string, key: string, value: string)
    requires HasKey(st.config, sec) && Get(st.config, sec).Entries?
  {
    var e := Get(st.config, sec).entries;
    && r.section == st.section
    && Keys(r.config) == Keys(st.config)
    && HasKey(r.config, sec) && Get(r.config, sec).Entries?
    && (var e' := Get(r.config, sec).entries;
        && HasKey(e', key) && Get(e', key) == value
        && (forall k :: k != key ==> (HasKey(e', k) <==> HasKey(e, k)))
        && (forall k :: k != key && HasKey(e, k) ==> Get(e', k) == Get(e, k))
        && Keys(e') == (if HasKey(e, key) then Keys(e) else Keys(e) + [key]))
    && forall s :: s != sec && HasKey(st.config, s) ==> HasKey(r.config, s) && Get(r.config, s) == Get(st.config, s)
  }

  /** `config[sec][key] = value` on a present section: it raises when the
      section holds text and otherwise sets the key as `SetsKey` says. */
  lemma AssignKeySets(st: ParseState, sec: string, key: string, value: string, idx: nat)
    requires WellFormed(st) && HasKey(st.config, sec)
    ensures Get(st.config, sec).Text? ==> AssignKey(st.config, sec, key, value, idx) == Failure(AssignToText(idx))
    ensures Get(st.config, sec).Entries? ==>
      && AssignKey(st.config, sec, key, value, idx).Success?
      && SetsKey(st, ParseState(AssignKey(st.config, sec, key, value, idx).value, st.section), sec, key, value)
  {
    if Get(st.config, sec).Entries? {
      var e := Get(st.config, sec).entries;
      var j := Find(st.config, sec);
      assert st.config[j].1 == Entries(e);
      PutGet(e, key, value);
      PutGet(st.config, sec, Entries(Put(e, key, value)));
    }
  }

  /** In `[Strings]`, a line `key = value` is split at its first `=`, quoted
      or not; the stripped key is set to the stripped value, replacing an
      earlier value of the same key, and nothing else changes. The line raises
      when `[Strings]` holds text. */
  lemma StringsLineSetsKey(st: ParseState, line: string, idx: nat)
    requires WellFormed(st) && st.section == Some(StringsSection)
    requires Clean(line) != [] && !IsHeader(Clean(line)) && '=' in Clean(line)
    ensures var (k, v) := SplitOnce(Clean(line), '=').value;
      var r := Step(st, line, idx);
      && k + "=" + v == Clean(line) && '=' !in k
      && (Get(st.config, StringsSection).Text? ==> r == Failure(AssignToText(idx)))
      && (Get(st.config, StringsSection).Entries? ==>
            r.Success? && SetsKey(st, r.value, StringsSection, Strip(k), Strip(v)))
  {
    var (k, v) := SplitOnce(Clean(line), '=').value;
    AssignKeySets(st, StringsSection, Strip(k), Strip(v), idx);
  }

  /** In `[Strings]`, a line without `=` cannot be unpacked into a key and a
      value, so parsing stops there. */
  lemma StringsLineWithoutEqualsFails(st: ParseState, line: string, idx: nat)
    requires st.section == Some(StringsSection)
    requires Clean(line) != [] && !IsHeader(Clean(line)) && '=' !in Clean(line)
    ensures Step(st, line, idx) == Failure(MissingEqualsInStrings(idx))
  {
  }

  /** In any other section, a line with an `=` outside quotes is still split at
      its FIRST `=`, even a quoted one; the stripped key is set to the stripped
      value, replacing an earlier value, and nothing else changes. The line
      raises when the section holds text. */
  lemma KeyLineSetsKey(st: ParseState, line: string, idx: nat)
    requires WellFormed(st) && st.section.Some? && st.section != Some(StringsSection)
    requires Clean(line) != [] && !IsHeader(Clean(line)) && HasUnquotedEqual(Clean(line))
    ensures '=' in Clean(line)
    ensures var (k, v) := SplitOnce(Clean(line), '=').value;
      var sec := st.section.value;
      var r := Step(st, line, idx);
      && k + "=" + v == Clean(line) && '=' !in k
      && (Get(st.config, sec).Text? ==> r == Failure(AssignToText(idx)))
      && (Get(st.config, sec).Entries? ==> r.Success? && SetsKey(st, r.value, sec, Strip(k), Strip(v)))
  {
    var j :| 0 <= j < |Clean(line)| && UnquotedEqualAt(Clean(line), j);
    assert '=' in Clean(line);
    var (k, v) := SplitOnce(Clean(line), '=').value;
    AssignKeySets(st, st.section.value, Strip(k), Strip(v), idx);
  }

  /** A header line makes its section current and (re)sets it to an empty
      dictionary: a section declared again loses its earlier content but
      keeps its place in the order, a new section goes last, and the other
      sections are as they were. */
  lemma RedeclaredSectionIsEmpty(st: ParseState, line: string, idx: nat)
    requires IsHeader(Clean(line))
    ensures var name := SectionName(Clean(line));
      var r := Step(st, line, idx);
      && r.Success? && r.value.section == Some(name)
      && HasKey(r.value.config, name) && Get(r.value.config, name) == Entries([])
      && Keys(r.value.config) == (if HasKey(st.config, name) then Keys(st.config) else Keys(st.config) + [name])
      && forall s :: s != name && HasKey(st.config, s) ==>
           HasKey(r.value.config, s) && Get(r.value.config, s) == Get(st.config, s)
  {
    var name := SectionName(Clean(line));
    HasKeyIsInKeys(st.config, name);
    PutMeaning(st.config, name, Entries([]));
    forall s | s != name && HasKey(st.config, s)
      ensures HasKey(Put(st.config, name, Entries([])), s)
      ensures Get(Put(st.config, name, Entries([])), s) == Get(st.config, s)
    {
      var q := Find(st.config, s);
      assert st.config[q].0 == s;
    }
  }

  /** In any other section, lines without an unquoted `=` accumulate as text:
      the first becomes the section's text, later ones are appended after a
      newline, and they are dropped when the section already holds keys. */
  lemma TextLineAccumulates(st: ParseState, line: string, idx: nat)
    requires WellFormed(st) && st.section.Some? && st.section != Some(StringsSection)
    requires Clean(line) != [] && !IsHeader(Clean(line)) && !HasUnquotedEqual(Clean(line))
    ensures var l := Clean(line);
      var cur := Get(st.config, st.section.value);
      var r := Step(st, line, idx);
      && r.Success? && r.value.section == st.section
      && Keys(r.value.config) == Keys(st.config)
      && HasKey(r.value.config, st.section.value)
      && Get(r.value.config, st.section.value) ==
           (if cur == Entries([]) then Text(l)
            else if cur.Text? then Text(cur.text + "\n" + l)
            else cur)
  {
    var l := Clean(line);
    var sec := st.section.value;
    var cur := Get(st.config, sec);
    var j := Find(st.config, sec);
    assert st.config[j].1 == cur;
    TextLineKeys(st, l);
    if IsEmpty(cur) {
      PutGet(st.config, sec, Text(l));
    } else if cur.Text? {
      PutGet(st.config, sec, Text(cur.text + "\n" + l));
    }
  }

  // ---------------------------------------------------------------------------
  // extra_version
  // ---------------------------------------------------------------------------

  /** Why the version cannot be extracted: `[Version]` or its `DriverVer` key is
      missing (or the section is text), `%` references need a `[Strings]`
      section that is missing or text, the value does not have exactly one
      comma (`n` is the number of pieces), or the date does not parse. */
  datatype VersionError =
    | MissingDriverVer
    | MissingStrings
    | BadVersionFormat(pieces: nat)
    | BadDate

  const VersionSection: string := "version"
  const DriverVerKey: string := "DriverVer"

  /** Every `%key%` replaced by its value, key by key in the order of the
      `[Strings]` section. */
  function SubstituteAll(s: string, strings: ODict<string, string>): string
    decreases strings
  {
    if strings == [] then s
    else SubstituteAll(ReplaceAll(s, "%" + strings[0].0 + "%", strings[0].1), strings[1..])
  }

  /** The replacement loop of extra_version. */
  method Substitute(s: string, strings: ODict<string, string>) returns (r: string)
    ensures r == SubstituteAll(s, strings)
  {
    r := s;
    for i := 0 to |strings|
      invariant SubstituteAll(s, strings) == SubstituteAll(r, strings[i..])
    {
      var (key, value) := strings[i];
      assert strings[i..][1..] == strings[i + 1..];
      r := ReplaceAll(r, "%" + key + "%", value);
    }
  }

  /** Without a `%` no reference can occur, so the `'%' in verstr` guard does not
      change the string: it only spares the lookup of `[Strings]`. */
  lemma {:induction false} SubstituteWithoutPercent(s: string, strings: ODict<string, string>)
    requires '%' !in s
    ensures SubstituteAll(s, strings) == s
  {
    if strings != [] {
      var pat := "%" + strings[0].0 + "%";
      ReplaceWithoutFirstChar(s, pat, strings[0].1);
      SubstituteWithoutPercent(s, strings[1..]);
    }
  }

  /** The raw `DriverVer` value: `inf["version"]["DriverVer"]`. */
  function DriverVer(inf: Config): Option<string>
  {
    if HasKey(inf, VersionSection) && Get(inf, VersionSection).Entries?
       && HasKey(Get(inf, VersionSection).entries, DriverVerKey)
    then Some(Get(Get(inf, VersionSection).entries, DriverVerKey))
    else None
  }

  /** `inf["strings"]` when it is a dictionary. */
  function StringsOf(inf: Config): Option<ODict<string, string>>
  {
    if HasKey(inf, StringsSection) && Get(inf, StringsSection).Entries?
    then Some(Get(inf, StringsSection).entries)
    else None
  }

  /** The version string once `%key%` references are resolved: `None` when
      there is no `DriverVer`, or when it has a `%` and `[Strings]` is not a
      dictionary. */
  function Resolved(inf: Config): Option<string>
  {
    match DriverVer(inf)
    case None => None
    case Some(raw) =>
      if '%' !in raw then Some(raw)
      else if StringsOf(inf).None? then None
      else Some(SubstituteAll(raw, StringsOf(inf).value))
  }

  /** extra_version: look up `DriverVer`, resolve `%key%` references when it has
      a `%`, split at the one comma into a date (converted by `parseDate`, the
      role of `strptime` with `%m/%d/%Y`) and a version, both stripped. Each
      way of failing is told apart, and the result is the date and version
      around the single comma of the resolved string. */
  method ExtraVersion(inf: Config, parseDate: string -> Option<int>) returns (r: Result<(int, string), VersionError>)
    ensures r == Failure(MissingDriverVer) <==> DriverVer(inf).None?
    ensures r == Failure(MissingStrings) <==> DriverVer(inf).Some? && Resolved(inf).None?
    ensures Resolved(inf).Some? ==>
      (r.Failure? && r.error.BadVersionFormat? <==> Count(Resolved(inf).value, ',') != 1)
    ensures r.Failure? && r.error.BadVersionFormat? ==> r.error.pieces == Count(Resolved(inf).value, ',') + 1
    ensures r.Success? || r == Failure(BadDate) ==>
      exists a, b ::
        && Resolved(inf) == Some(a + "," + b) && ',' !in a && ',' !in b
        && (r.Success? ==> parseDate(Strip(a)) == Some(r.value.0) && r.value.1 == Strip(b))
        && (r == Failure(BadDate) ==> parseDate(Strip(a)).None?)
  {
    var raw := DriverVer(inf);
    if raw.None? {
      return Failure(MissingDriverVer);
    }
    var verstr := raw.value;
    if '%' in verstr {
      var strings := StringsOf(inf);
      if strings.None? {
        return Failure(MissingStrings);
      }
      verstr := Substitute(verstr, strings.value);
    }
    var parts := Split(verstr, ',');
    SplitCount(verstr, ',');
    if |parts| != 2 {
      return Failure(BadVersionFormat(|parts|));
    }
    SplitJoin(verstr, ',');
    assert Join(parts, ',') == parts[0] + [','] + Join(parts[1..], ',');
    assert verstr == parts[0] + "," + parts[1];
    var date := parseDate(Strip(parts[0]));
    if date.None? {
      return Failure(BadDate);
    }
    return Success((date.value, Strip(parts[1])));
  }
}
