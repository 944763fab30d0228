/** How a configuration file falls into lines when it is read through a buffer that holds n
    characters, and how the lines fill in the values. */
module ConfigLines {
  import opened Options

  function Min(x: nat, y: nat): nat { if x <= y then x else y }

  /** strchr: the first c in s, or |s|. */
  function Find(s: string, c: char): (k: nat)
    ensures k <= |s| && c !in s[..k] && (k < |s| ==> s[k] == c)
  {
    if |s| == 0 then 0
    else if s[0] == c then 0
    else
      var k := Find(s[1..], c);
      assert s[..k + 1] == [s[0]] + s[1..][..k];
      k + 1
  }

  lemma FindIs(s: string, c: char, k: nat)
    requires k <= |s| && c !in s[..k] && (k < |s| ==> s[k] == c)
    ensures Find(s, c) == k
  {
  }

  function TrimCr(s: string): string { if |s| > 0 && s[|s| - 1] == '\r' then s[..|s| - 1] else s }

  // ----- the simple view

  /** The newline-terminated lines of s. */
  function Split(s: string): seq<string>
    decreases |s|
  {
    var k := Find(s, '\n');
    if k == |s| then [] else [s[..k]] + Split(s[k + 1..])
  }

  /** What follows the last newline. */
  function Tail(s: string): string
    decreases |s|
  {
    var k := Find(s, '\n');
    if k == |s| then s else Tail(s[k + 1..])
  }

  function Trimmed(lines: seq<string>): seq<string> {
    if |lines| == 0 then [] else [TrimCr(lines[0])] + Trimmed(lines[1..])
  }

  /** Every line, with its newline, fits n characters. */
  predicate AllFit(s: string, n: nat)
    decreases |s|
  {
    var k := Find(s, '\n');
    k == |s| || (k + 1 <= n && AllFit(s[k + 1..], n))
  }

  /** Neither blank nor a comment. */
  predicate Meaningful(line: string) { |line| > 0 && line[0] != '#' }

  function Wanted(lines: seq<string>): seq<string> {
    if |lines| == 0 then [] else (if Meaningful(lines[0]) then [lines[0]] else []) + Wanted(lines[1..])
  }

  // ----- the view through the buffer

  /** The lines the reader finds from here on: rest is the text from the current line on, and its
      first seen characters are in the buffer. */
  function Windowed(rest: string, seen: nat, n: nat): seq<string>
    requires seen <= |rest| && 0 < n
    decreases |rest|
  {
    var k := Find(rest[..seen], '\n');
    if k < seen then [TrimCr(rest[..k])] + Windowed(rest[k + 1..], seen - k - 1, n)
    else if seen == |rest| then []
    else
      var s := Min(n, |rest|);
      var j := Find(rest[..s], '\n');
      if j < s then [TrimCr(rest[..j])] + Windowed(rest[j + 1..], s - j - 1, n)
      else [if s == n then TrimCr(rest[..s]) else rest[..s]] + Windowed(rest[s..], 0, n)
  }

  lemma FindPrefix(s: string, m: nat)
    requires m <= |s|
    ensures Find(s[..m], '\n') < m ==> Find(s, '\n') == Find(s[..m], '\n')
    ensures Find(s, '\n') < m ==> Find(s[..m], '\n') == Find(s, '\n')
  {
    hide Find;
    var k := Find(s[..m], '\n');
    if k < m {
      assert s[..k] == s[..m][..k];
      FindIs(s, '\n', k);
    }
  }

  lemma SplitStep(rest: string)
    requires Find(rest, '\n') < |rest|
    ensures Trimmed(Split(rest)) == [TrimCr(rest[..Find(rest, '\n')])] + Trimmed(Split(rest[Find(rest, '\n') + 1..]))
  {
    hide Find, TrimCr;
    var f := Find(rest, '\n');
    assert Split(rest) == [rest[..f]] + Split(rest[f + 1..]);
    assert Split(rest)[1..] == Split(rest[f + 1..]);
  }

  /** The next line is found, in the buffer or after a refill. */
  lemma WindowedStep(rest: string, seen: nat, n: nat, s: nat)
    requires seen <= |rest| && 0 < n && Find(rest, '\n') < s <= |rest|
    requires s == if Find(rest[..seen], '\n') < seen then seen else Min(n, |rest|)
    ensures var f := Find(rest, '\n');
      Windowed(rest, seen, n) == [TrimCr(rest[..f])] + Windowed(rest[f + 1..], s - f - 1, n)
  {
    hide Find, TrimCr;
    FindPrefix(rest, seen);
    FindPrefix(rest, s);
  }

  lemma NothingLeft(rest: string, n: nat)
    requires Tail(rest) == "" && Find(rest, '\n') == |rest| && 0 < n
    ensures rest == "" && Windowed(rest, 0, n) == [] && Trimmed(Split(rest)) == []
  {
  }

  /** For a file whose lines are all terminated and fit the buffer, the buffer does not show. */
  lemma {:induction false} WindowedIsSplit(rest: string, seen: nat, n: nat)
    requires seen <= |rest| && 0 < n && Tail(rest) == "" && AllFit(rest, n)
    ensures Windowed(rest, seen, n) == Trimmed(Split(rest))
    decreases |rest|
  {
    hide Find, TrimCr, Windowed, Split, Trimmed;
    var f := Find(rest, '\n');
    if f < |rest| {
      var s := if Find(rest[..seen], '\n') < seen then seen else Min(n, |rest|);
      FindPrefix(rest, seen);
      WindowedIsSplit(rest[f + 1..], s - f - 1, n);
      SplitStep(rest);
      WindowedStep(rest, seen, n, s);
    } else {
      NothingLeft(rest, n);
    }
  }

  /** A line that does not fit the buffer is passed on in pieces. */
  lemma LongLine(file: string, n: nat)
    requires 0 < n <= |file| && '\n' !in file[..n]
    ensures Windowed(file, 0, n) ==
      [if file[n - 1] == '\r' then file[..n - 1] else file[..n]] + Windowed(file[n..], 0, n)
  {
    assert file[..n] == file[..n][..n];
    FindIs(file[..n], '\n', n);
    assert file[..0] == [] && file[..n][..n - 1] == file[..n - 1];
  }

  // ----- files by their lines

  lemma {:induction false} WantedMore(a: seq<string>, b: seq<string>)
    ensures Wanted(a + b) == Wanted(a) + Wanted(b)
  {
    if |a| == 0 {
      assert a + b == b;
    } else {
      assert (a + b)[0] == a[0] && (a + b)[1..] == a[1..] + b;
      WantedMore(a[1..], b);
    }
  }

  /** No stretch without a newline is as long as n. */
  predicate ShortStretches(s: string, n: nat) {
    forall i, j :: 0 <= i <= j <= |s| && '\n' !in s[i..j] ==> j - i < n
  }

  lemma ShortRest(s: string, k: nat, n: nat)
    requires ShortStretches(s, n) && k <= |s|
    ensures ShortStretches(s[k..], n)
  {
    forall i, j | 0 <= i <= j <= |s[k..]| && '\n' !in s[k..][i..j] ensures j - i < n {
      assert s[k..][i..j] == s[k + i..k + j];
    }
  }

  /** One line more at the end of a file of terminated lines that fit. */
  lemma {:induction false} SplitMore(f: string, l: string, n: nat)
    requires (f == "" || f[|f| - 1] == '\n') && '\n' !in l && |l| < n && ShortStretches(f, n)
    ensures Tail(f) == "" && AllFit(f, n) && Tail(f + l + "\n") == "" && AllFit(f + l + "\n", n)
    ensures Trimmed(Split(f + l + "\n")) == Trimmed(Split(f)) + [TrimCr(l)]
    decreases |f|
  {
    hide Find, TrimCr, Split, Trimmed, Tail, AllFit, ShortStretches;
    var g := f + l + "\n";
    if f == "" {
      assert g == l + "\n" && g[..|l|] == l && g[|l| + 1..] == "";
      FindIs(g, '\n', |l|);
      EmptyFile(n);
      LineStep(g, n);
      SplitStep(g);
    } else {
      var k := Find(f, '\n');
      assert f[|f| - 1] == '\n';
      assert f[..|f|] == f && k < |f|;
      assert g[..k] == f[..k] && g[k + 1..] == f[k + 1..] + l + "\n";
      FindIs(g, '\n', k);
      assert k + 1 <= n by { FirstStretch(f, k, n); }
      ShortRest(f, k + 1, n);
      SplitMore(f[k + 1..], l, n);
      LineStep(f, n);
      LineStep(g, n);
      SplitStep(f);
      SplitStep(g);
    }
  }

  lemma FirstStretch(f: string, k: nat, n: nat)
    requires ShortStretches(f, n) && k <= |f| && '\n' !in f[..k]
    ensures k < n
  {
    assert f[0..k] == f[..k];
  }

  lemma EmptyFile(n: nat)
    ensures Split("") == [] && Tail("") == "" && AllFit("", n) && Trimmed(Split("")) == []
  {
  }

  // ----- a last line without a newline

  /** The lengths of the terminated lines, newlines included. */
  function LineLengths(s: string): (r: seq<nat>)
    ensures forall i :: 0 <= i < |r| ==> 0 < r[i]
    decreases |s|
  {
    var k := Find(s, '\n');
    if k == |s| then [] else [k + 1] + LineLengths(s[k + 1..])
  }

  /** How much of the buffer lies before the text that follows lines of these lengths, when p
      characters of it lie before them: a line that does not fit the rest of the buffer moves to its
      front. */
  function Filled(lengths: seq<nat>, p: nat, n: nat): nat {
    if |lengths| == 0 then p else Filled(lengths[1..], if p + lengths[0] <= n then p + lengths[0] else lengths[0], n)
  }

  /** Where the buffer that holds the start of the last line starts. */
  function WindowStart(file: string, n: nat): int { |file| - |Tail(file)| - Filled(LineLengths(file), 0, n) }

  /** An unterminated last line is passed on: the buffer that holds its start does not reach the end
      of the file, or starts at this very line. */
  predicate TailPassedOn(file: string, n: nat) {
    Tail(file) != "" && (WindowStart(file, n) + n < |file| || WindowStart(file, n) == |file| - |Tail(file)|)
  }

  /** It loses a carriage return only if it fills the buffer. */
  function TailText(tail: string, n: nat): string { if |tail| == n then TrimCr(tail) else tail }

  lemma LineStep(rest: string, n: nat)
    requires Find(rest, '\n') < |rest|
    ensures var f := Find(rest, '\n');
      && Tail(rest) == Tail(rest[f + 1..]) && LineLengths(rest) == [f + 1] + LineLengths(rest[f + 1..])
      && (AllFit(rest, n) <==> f + 1 <= n && AllFit(rest[f + 1..], n))
  {
  }

  lemma NoLine(rest: string)
    requires Find(rest, '\n') == |rest|
    ensures Tail(rest) == rest && LineLengths(rest) == [] && Trimmed(Split(rest)) == []
  {
  }

  /** The last line, with p characters of the buffer before it. */
  lemma LastStep(rest: string, p: nat, n: nat)
    requires 0 < p <= n && Find(rest, '\n') == |rest| <= n
    ensures Windowed(rest, Min(n - p, |rest|), n) == if rest != "" && p + |rest| > n then [TailText(rest, n)] else []
  {
    hide Find, TrimCr;
    FindPrefix(rest, Min(n - p, |rest|));
    assert rest[..|rest|] == rest;
    if rest != "" { assert Windowed(rest[|rest|..], 0, n) == []; }
  }

  lemma {:induction false} WindowedTail(rest: string, p: nat, n: nat)
    requires 0 < p <= n && AllFit(rest, n) && |Tail(rest)| <= n
    ensures Windowed(rest, Min(n - p, |rest|), n) == Trimmed(Split(rest)) +
      if Tail(rest) != "" && Filled(LineLengths(rest), p, n) + |Tail(rest)| > n then [TailText(Tail(rest), n)] else []
    decreases |rest|
  {
    hide Find, TrimCr, Windowed, Split, Trimmed, Tail, AllFit, LineLengths;
    var f, seen := Find(rest, '\n'), Min(n - p, |rest|);
    if f < |rest| {
      LineStep(rest, n);
      FindPrefix(rest, seen);
      var q := if p + f + 1 <= n then p + f + 1 else f + 1;
      var s := if p + f + 1 <= n then seen else Min(n, |rest|);
      WindowedTail(rest[f + 1..], q, n);
      SplitStep(rest);
      WindowedStep(rest, seen, n, s);
      assert LineLengths(rest)[1..] == LineLengths(rest[f + 1..]);
    } else {
      NoLine(rest);
      LastStep(rest, p, n);
    }
  }

  /** The reader passes on the terminated lines and, exactly when its buffer does not happen to hold
      the rest of the file already, an unterminated last one. */
  lemma LastLine(file: string, n: nat)
    requires 0 < n && AllFit(file, n) && |Tail(file)| <= n
    ensures Windowed(file, 0, n) ==
      Trimmed(Split(file)) + if TailPassedOn(file, n) then [TailText(Tail(file), n)] else []
  {
    hide Find, TrimCr, Windowed, Split, Trimmed, Tail, AllFit, LineLengths;
    var f := Find(file, '\n');
    if f < |file| {
      LineStep(file, n);
      FindPrefix(file, 0);
      WindowedTail(file[f + 1..], f + 1, n);
      SplitStep(file);
      WindowedStep(file, 0, n, Min(n, |file|));
      FilledPositive(LineLengths(file[f + 1..]), f + 1, n);
      assert LineLengths(file)[1..] == LineLengths(file[f + 1..]);
    } else {
      NoLine(file);
      OnlyLine(file, n);
    }
  }

  lemma {:induction false} FilledPositive(lengths: seq<nat>, p: nat, n: nat)
    requires 0 < p && forall i :: 0 <= i < |lengths| ==> 0 < lengths[i]
    ensures 0 < Filled(lengths, p, n)
  {
    if |lengths| > 0 { FilledPositive(lengths[1..], if p + lengths[0] <= n then p + lengths[0] else lengths[0], n); }
  }

  lemma OnlyLine(file: string, n: nat)
    requires 0 < n && Find(file, '\n') == |file| <= n
    ensures Windowed(file, 0, n) == if file == "" then [] else [TailText(file, n)]
  {
    hide Find, TrimCr;
    FindPrefix(file, 0);
    assert file[..|file|] == file;
    if file != "" { assert Windowed(file[|file|..], 0, n) == []; }
  }

  lemma {:induction false} ShortLines(s: string, n: nat)
    requires |s| <= n
    ensures AllFit(s, n) && |Tail(s)| <= |s|
    ensures forall p: nat :: p + |s| <= n ==> Filled(LineLengths(s), p, n) == p + |s| - |Tail(s)|
    decreases |s|
  {
    hide Find, Tail, AllFit, LineLengths;
    var f := Find(s, '\n');
    if f < |s| {
      LineStep(s, n);
      ShortLines(s[f + 1..], n);
      assert LineLengths(s)[1..] == LineLengths(s[f + 1..]);
    } else {
      NoLine(s);
      assert AllFit(s, n) by { NoLineFits(s, n); }
    }
  }

  lemma NoLineFits(s: string, n: nat)
    requires Find(s, '\n') == |s|
    ensures AllFit(s, n)
  {
  }

  /** In a file that fits the buffer, an unterminated last line is passed on exactly when it is the
      only line. */
  lemma SmallFile(file: string, n: nat)
    requires 0 < n && |file| <= n
    ensures TailPassedOn(file, n) <==> file != "" && '\n' !in file
    ensures Windowed(file, 0, n) == if file != "" && '\n' !in file then [TailText(file, n)] else Trimmed(Split(file))
  {
    hide Tail, AllFit, LineLengths, Windowed, Split, Trimmed, TrimCr, Filled;
    ShortLines(file, n);
    LastLine(file, n);
    var f := Find(file, '\n');
    assert file[..|file|] == file;
    if f < |file| {
      LineStep(file, n);
      ShortLines(file[f + 1..], n);
      assert file[f] == '\n';
    } else {
      NoLine(file);
    }
  }

  // ----- values

  const MAX_VALUE: nat := 2048

  datatype ConfigVal = ConfigVal(val: string, hasValue: bool, appSpecific: bool, fromEnv: bool)

  predicate StartsWith(line: string, name: string) { |name| <= |line| && line[..|name|] == name }

  /** The line gives a value to the variable: its name is followed right away by the first '='. */
  function LineValue(name: string, line: string): Option<string> {
    if StartsWith(line, name) && |name| < |line| && Find(line, '=') == |name| then Some(line[|name| + 1..]) else None
  }

  /** The line starts with the variable's name but gives it no value. */
  predicate Malformed(name: string, line: string) { StartsWith(line, name) && LineValue(name, line).None? }

  /** What strncpy stores. */
  function Stored(value: string): (r: string)
    ensures r == if |value| <= 2048 then value else value[..2048]
  {
    value[..Min(|value|, MAX_VALUE)]
  }

  /** Whether a line gives a value, and when it is malformed: by its first characters. */
  lemma LineForm(name: string, line: string)
    ensures Malformed(name, line) <==> name <= line && !('=' !in name && name + "=" <= line)
    ensures LineValue(name, line) ==
      if '=' !in name && name + "=" <= line then Some(line[|name| + 1..]) else None
  {
    hide Find;
    if name + "=" <= line {
      assert line[|name|] == (name + "=")[|name|] == '=' && line[..|name|] == (name + "=")[..|name|] == name;
      if '=' !in name { FindIs(line, '=', |name|); }
    }
  }

  function Updated(v: ConfigVal, name: string, line: string, appSpecific: bool, overwrite: bool): ConfigVal {
    var value := LineValue(name, line);
    if value.Some? && (!v.hasValue || overwrite) then ConfigVal(Stored(value.value), true, appSpecific, false) else v
  }

  function UpdatedAll(
    vals: seq<ConfigVal>, names: seq<string>, line: string, appSpecific: bool, overwrite: bool): (r: seq<ConfigVal>)
    requires |vals| == |names|
    ensures |r| == |vals|
  {
    seq(|vals|, i requires 0 <= i < |vals| => Updated(vals[i], names[i], line, appSpecific, overwrite))
  }

  predicate Accepted(names: seq<string>, line: string) { forall i :: 0 <= i < |names| ==> !Malformed(names[i], line) }

  /** The values after the lines, or None once a line is malformed. */
  function Applied(
    vals: seq<ConfigVal>, names: seq<string>, lines: seq<string>, appSpecific: bool,
    overwrite: bool): (r: Option<seq<ConfigVal>>)
    requires |vals| == |names|
    ensures r.Some? ==> |r.value| == |vals|
    decreases |lines|
  {
    if |lines| == 0 then Some(vals)
    else if !Accepted(names, lines[0]) then None
    else Applied(UpdatedAll(vals, names, lines[0], appSpecific, overwrite), names, lines[1..], appSpecific, overwrite)
  }

  lemma {:induction false} AppliedSnoc(
    vals: seq<ConfigVal>, names: seq<string>, lines: seq<string>, line: string, appSpecific: bool, overwrite: bool)
    requires |vals| == |names|
    ensures Applied(vals, names, lines + [line], appSpecific, overwrite) ==
      var r := Applied(vals, names, lines, appSpecific, overwrite);
      if r.None? || !Accepted(names, line) then None else Some(UpdatedAll(r.value, names, line, appSpecific, overwrite))
    decreases |lines|
  {
    if |lines| > 0 {
      assert (lines + [line])[0] == lines[0] && (lines + [line])[1..] == lines[1..] + [line];
      AppliedSnoc(UpdatedAll(vals, names, lines[0], appSpecific, overwrite),
        names, lines[1..], line, appSpecific, overwrite);
    } else {
      assert (lines + [line])[1..] == [];
    }
  }

  /** The first value a list of lines gives to a variable. */
  function FirstValue(name: string, lines: seq<string>): Option<string> {
    if |lines| == 0 then None
    else if LineValue(name, lines[0]).Some? then LineValue(name, lines[0])
    else FirstValue(name, lines[1..])
  }

  /** Filling in without overwriting: a value that is there stays, else the first one counts. */
  lemma {:induction false} FirstWins(
    vals: seq<ConfigVal>, names: seq<string>, lines: seq<string>, appSpecific: bool, i: nat)
    requires |vals| == |names| && i < |names| && Applied(vals, names, lines, appSpecific, false).Some?
    ensures Applied(vals, names, lines, appSpecific, false).value[i] ==
      if vals[i].hasValue then vals[i]
      else match FirstValue(names[i], lines)
        case Some(v) => ConfigVal(Stored(v), true, appSpecific, false)
        case None => vals[i]
    decreases |lines|
  {
    if |lines| > 0 {
      FirstWins(UpdatedAll(vals, names, lines[0], appSpecific, false), names, lines[1..], appSpecific, i);
    }
  }
}
