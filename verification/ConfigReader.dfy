/** Reading configuration files line by line through a fixed buffer (core/config.c), and layering
    their values over the environment. */
module ConfigReader {
  import opened Options
  import opened ConfigLines

  ghost predicate NulFree(s: string) { '\0' !in s }

  /** The C string that starts at i. */
  function CString(b: seq<char>, i: nat): string
    requires i <= |b|
  {
    b[i..i + Find(b[i..], '\0')]
  }

  /** The buffer holds the first seen characters of rest, from line on, and a NUL after them. */
  ghost predicate Buffered(b: seq<char>, line: nat, bufread: nat, rest: string, seen: nat) {
    line <= bufread < |b| && seen == bufread - line && seen <= |rest|
    && b[line..bufread] == rest[..seen] && b[bufread] == '\0'
  }

  /** Between two lines: rest is what has not been looked at, of which seen characters are buffered;
      the file has been read up to pos. */
  ghost predicate Ready(b: seq<char>, file: string, pos: nat, newline: int, bufread: nat, rest: string, seen: nat) {
    && pos <= |file| && NulFree(rest) && seen <= |rest| && rest[seen..] == file[pos..]
    && if newline == -1 || newline == |b| - 1 then seen == 0
       else 0 <= newline && Buffered(b, newline + 1, bufread, rest, seen) && (pos < |file| ==> bufread == |b| - 1)
  }

  // ----- the library routines

  /** The buffer a with the n characters of the file from pos on written at at. */
  ghost function ReadInto(a: seq<char>, file: string, pos: nat, at: nat, n: nat): seq<char>
    requires at + n <= |a| && pos + n <= |file|
  {
    a[..at] + file[pos..pos + n] + a[at + n..]
  }

  lemma ReadOne(a: seq<char>, file: string, pos: nat, at: nat, n: nat)
    requires at + n < |a| && pos + n < |file|
    ensures |ReadInto(a, file, pos, at, n)| == |a|
    ensures ReadInto(a, file, pos, at, n)[at + n := file[pos + n]] == ReadInto(a, file, pos, at, n + 1)
  {
  }

  lemma ReadNone(a: seq<char>, file: string, pos: nat, at: nat)
    requires at <= |a| && pos <= |file|
    ensures ReadInto(a, file, pos, at, 0) == a
  {
  }

  /** os_read: as much as is wanted, or as there is. */
  method OsRead(file: string, pos: nat, buf: array<char>, at: nat, want: nat) returns (n: nat)
    requires pos <= |file| && at + want <= buf.Length
    modifies buf
    ensures n == Min(want, |file| - pos)
    ensures buf[..] == old(buf[..at]) + file[pos..pos + n] + old(buf[at + n..])
  {
    ghost var a := buf[..];
    n := 0;
    ReadNone(a, file, pos, at);
    while n < want && pos + n < |file|
      invariant n <= want && pos + n <= |file|
      invariant buf[..] == ReadInto(a, file, pos, at, n)
    {
      hide ReadInto;
      ReadOne(a, file, pos, at, n);
      buf[at + n] := file[pos + n];
      n := n + 1;
    }
  }

  /** memmove to the start of the buffer. */
  method MoveToFront(buf: array<char>, from: nat, len: nat)
    requires 0 < from && from + len <= buf.Length
    modifies buf
    ensures buf[..] == old(buf[from..from + len]) + old(buf[len..])
  {
    var i := 0;
    while i < len
      invariant i <= len
      invariant forall j :: 0 <= j < i ==> buf[j] == old(buf[from + j])
      invariant forall j :: i <= j < buf.Length ==> buf[j] == old(buf[j])
    {
      buf[i] := buf[from + i];
      i := i + 1;
    }
  }

  /** strchr in the part of the buffer that ends with a NUL at end; -1 for NULL. */
  method StrChr(buf: array<char>, from: nat, c: char, ghost end: nat) returns (k: int)
    requires from <= end < buf.Length && buf[end] == '\0' && c != '\0' && NulFree(buf[from..end])
    ensures k == var j := Find(buf[from..end], c); if from + j < end then from + j else -1
  {
    ghost var s := buf[from..end];
    k := from;
    while buf[k] != '\0' && buf[k] != c
      invariant from <= k <= end && c !in s[..k - from]
      decreases end - k
    {
      assert s[k - from] == buf[k];
      assert s[..k - from + 1] == s[..k - from] + [s[k - from]];
      k := k + 1;
    }
    if k < end { assert s[k - from] == buf[k]; }
    FindIs(s, c, k - from);
    if buf[k] == '\0' {
      k := -1;
    }
  }

  method ReadCString(buf: array<char>, i: nat, ghost end: nat) returns (s: string)
    requires i <= end < buf.Length && buf[end] == '\0'
    ensures s == CString(buf[..], i)
  {
    var k := i;
    ghost var b := buf[..][i..];
    while buf[k] != '\0'
      invariant i <= k <= end && '\0' !in b[..k - i]
      decreases end - k
    {
      assert b[k - i] == buf[k] && b[..k - i + 1] == b[..k - i] + [b[k - i]];
      k := k + 1;
    }
    assert b[k - i] == buf[k];
    FindIs(b, '\0', k - i);
    s := buf[i..k];
  }

  // ----- the next line

  lemma FreshLine(b: seq<char>, rest: string, n: nat)
    requires n < |b| && n <= |rest| && b[..n] == rest[..n] && b[n] == '\0' && NulFree(rest)
    ensures Buffered(b, 0, n, rest, n) && NulFree(b[0..n])
  {
    assert b[0..n] == b[..n];
  }

  lemma BufferedClean(b: seq<char>, line: nat, bufread: nat, rest: string, seen: nat)
    requires Buffered(b, line, bufread, rest, seen) && NulFree(rest)
    ensures NulFree(b[line..bufread])
  {
  }

  /** After the rest of the buffered text is moved to the front and more is read behind it. */
  lemma Refilled(
    b0: seq<char>, b1: seq<char>, b2: seq<char>, file: string, pos: nat, line: nat, bufread: nat, rest: string,
    seen: nat, n: nat)
    requires Buffered(b0, line, bufread, rest, seen) && 0 < line && pos <= |file| && rest[seen..] == file[pos..]
    requires |b0| == |b1| == |b2| && b1[..seen] == b0[line..bufread]
    requires n == Min(line, |file| - pos) && seen + n < |b2| && b2[..seen + n] == b1[..seen] + file[pos..pos + n]
    requires b2[seen + n] == '\0' && NulFree(rest)
    ensures seen + n <= |rest| && Buffered(b2, 0, seen + n, rest, seen + n) && rest[seen + n..] == file[pos + n..]
    ensures NulFree(b2[0..seen + n])
  {
    assert rest[..seen + n] == rest[..seen] + rest[seen..][..n];
    assert rest[seen..][..n] == file[pos..pos + n];
    assert rest[seen + n..] == rest[seen..][n..] && file[pos + n..] == file[pos..][n..];
    FreshLine(b2, rest, seen + n);
  }

  /** What the reader knows after it has looked for the next line: line is in the buffer, and
      newline is its end, or -1 if the buffered text has none. */
  ghost predicate Found(
    b: seq<char>, file: string, pos: nat, line: nat, newline: int, bufread: nat, rest: string, seen: nat) {
    && pos <= |file| && NulFree(rest) && Buffered(b, line, bufread, rest, seen) && rest[seen..] == file[pos..]
    && (pos < |file| ==> bufread == |b| - 1)
    && newline == (var k := Find(rest[..seen], '\n'); if k < seen then line + k else -1)
  }

  /** The text the reader has from where it stands: what is buffered if a line ends in it, else a
      buffer full, or all there is. */
  function Look(rest: string, seen: nat, n: nat): nat
    requires seen <= |rest|
  {
    if Find(rest[..seen], '\n') < seen then seen else Min(n, |rest|)
  }

  /** Refilling an empty buffer. */
  method FillBuffer(file: string, pos: nat, buf: array<char>, ghost rest: string) returns (bufread: nat, newline: int)
    requires 1 < buf.Length && pos <= |file| && NulFree(rest) && rest == file[pos..]
    modifies buf
    ensures bufread == Min(buf.Length - 1, |rest|) && pos + bufread <= |file|
    ensures bufread == 0 ==> newline == -1
    ensures bufread > 0 ==> Found(buf[..], file, pos + bufread, 0, newline, bufread, rest, bufread)
  {
    hide Find;
    newline := -1;
    bufread := OsRead(file, pos, buf, 0, buf.Length - 1);
    if bufread > 0 {
      buf[bufread] := '\0';
      assert buf[..][..bufread] == file[pos..pos + bufread] == rest[..bufread];
      FreshLine(buf[..], rest, bufread);
      newline := StrChr(buf, 0, '\n', bufread);
      assert rest[bufread..] == file[pos + bufread..];
    }
  }

  /** Moving the unfinished line to the front of the buffer and reading on behind it. */
  method ShiftBuffer(
    file: string, pos: nat, buf: array<char>, line: nat, bufread: nat, ghost rest: string, ghost seen: nat)
    returns (total: nat, got: nat, newline: int)
    requires Buffered(buf[..], line, bufread, rest, seen) && 0 < line && pos <= |file| && rest[seen..] == file[pos..]
    requires NulFree(rest)
    requires pos < |file| ==> bufread == buf.Length - 1
    modifies buf
    ensures got == Min(line, |file| - pos) && total == seen + got && (got > 0 ==> total == Min(buf.Length - 1, |rest|))
    ensures got > 0 ==> Found(buf[..], file, pos + got, 0, newline, total, rest, total)
  {
    hide Find;
    newline := -1;
    var len := bufread - line;
    ghost var b0 := buf[..];
    assert b0[line..line + len] == rest[..seen];
    if len > 0 {
      MoveToFront(buf, line, len);
    }
    ghost var b1 := buf[..];
    assert b1[..seen] == b0[line..bufread];
    got := OsRead(file, pos, buf, len, line);
    total := len + got;
    if got > 0 {
      buf[total] := '\0';
      assert buf[..][..total] == b1[..seen] + file[pos..pos + got];
      Refilled(b0, b1, buf[..], file, pos, line, bufread, rest, seen, got);
      newline := StrChr(buf, 0, '\n', total);
      assert buf[0..total] == rest[..total];
    }
    assert |rest| - seen == |file| - pos by { assert |rest[seen..]| == |file[pos..]|; }
  }

  /** The first half of the loop of read_config_file. */
  method NextLine(
    file: string, pos: nat, buf: array<char>, newline: int, bufread: nat, ghost rest: string, ghost seen: nat)
    returns (eof: bool, pos': nat, line: nat, newline': int, bufread': nat)
    requires 1 < buf.Length && Ready(buf[..], file, pos, newline, bufread, rest, seen)
    modifies buf
    ensures eof <==> Find(rest[..seen], '\n') == seen == |rest|
    ensures !eof ==> Found(buf[..], file, pos', line, newline', bufread', rest, Look(rest, seen, buf.Length - 1))
    ensures !eof && newline' == -1 ==> line == 0
  {
    hide Find;
    eof, pos', line := false, pos, 0;
    if newline == -1 || newline == buf.Length - 1 {
      bufread', newline' := FillBuffer(file, pos, buf, rest);
      eof := bufread' == 0;
      pos' := pos + bufread';
    } else {
      line := newline + 1;
      bufread' := bufread;
      BufferedClean(buf[..], line, bufread, rest, seen);
      assert buf[line..bufread] == rest[..seen];
      newline' := StrChr(buf, line, '\n', bufread);
      if newline' == -1 {
        var got;
        bufread', got, newline' := ShiftBuffer(file, pos, buf, line, bufread, rest, seen);
        eof := got == 0;
        pos' := pos + got;
        line := 0;
        assert |rest[seen..]| == |file[pos..]|;
      }
    }
  }

  // ----- the line itself

  /** The text of the line, and what comes after it. */
  function LineText(rest: string, seen: nat, n: nat): string
    requires seen <= |rest|
  {
    var k := Find(rest[..seen], '\n');
    if k < seen then TrimCr(rest[..k]) else if seen == n then TrimCr(rest[..seen]) else rest[..seen]
  }

  function Consumed(rest: string, seen: nat): nat
    requires seen <= |rest|
  {
    var k := Find(rest[..seen], '\n');
    if k < seen then k + 1 else seen
  }

  /** One more line of the buffered view. */
  lemma WindowedNext(rest: string, seen: nat, n: nat)
    requires seen <= |rest| && 0 < n && !(Find(rest[..seen], '\n') == seen == |rest|)
    ensures var s := Look(rest, seen, n);
      && 0 < Consumed(rest, s) <= s <= |rest|
      && Windowed(rest, seen, n) ==
        [LineText(rest, s, n)] + Windowed(rest[Consumed(rest, s)..], s - Consumed(rest, s), n)
  {
    hide Find, TrimCr;
    FindPrefix(rest, seen);
    var s := Look(rest, seen, n);
    var k := Find(rest[..s], '\n');
    if k < s { assert rest[..s][..k] == rest[..k]; }
  }

  /** A string of clean characters followed by a NUL is read as itself. */
  lemma CStringIs(b: seq<char>, i: nat, s: string)
    requires i + |s| < |b| && b[i..i + |s|] == s && NulFree(s) && b[i + |s|] == '\0'
    ensures CString(b, i) == s
  {
    hide Find;
    assert b[i..][..|s|] == s && b[i..][|s|] == '\0';
    FindIs(b[i..], '\0', |s|);
  }

  /** The second half of the loop of read_config_file: the end of the line is overwritten with a
      NUL, and so is a carriage return before it. */
  method CutLine(
    buf: array<char>, line: nat, newline: int, bufread: nat, ghost file: string, ghost pos: nat, ghost rest: string,
    ghost seen: nat)
    returns (text: string, end: int)
    requires 1 < buf.Length && Found(buf[..], file, pos, line, newline, bufread, rest, seen)
    requires (newline == -1 ==> line == 0) && 0 < seen
    modifies buf
    ensures text == LineText(rest, seen, buf.Length - 1)
    ensures Ready(buf[..], file, pos, end, bufread, rest[Consumed(rest, seen)..], seen - Consumed(rest, seen))
  {
    hide Find, Look;
    end := newline;
    if newline == -1 {
      buf[buf.Length - 1] := '\0';
      end := buf.Length - 1;
    }
    buf[end] := '\0';
    if end > line && buf[end - 1] == '\r' {
      buf[end - 1] := '\0';
    }
    CutText(old(buf[..]), buf[..], line, newline, bufread, end, rest, seen);
    text := ReadCString(buf, line, end);
    CutReady(old(buf[..]), buf[..], file, pos, line, newline, bufread, end, rest, seen);
  }

  /** What the buffer is after the line has been cut off at end. */
  ghost predicate CutOff(b: seq<char>, b': seq<char>, line: nat, end: int) {
    && |b'| == |b| && line <= end < |b| && b'[end] == '\0'
    && (forall i :: 0 <= i < |b| && i != end && i != end - 1 ==> b'[i] == b[i])
    && (end > 0 ==> b'[end - 1] == if end > line && b[end - 1] == '\r' then '\0' else b[end - 1])
  }

  lemma CutText(b: seq<char>, b': seq<char>, line: nat, newline: int, bufread: nat, end: int, rest: string, seen: nat)
    requires CutOff(b, b', line, end) && Buffered(b, line, bufread, rest, seen) && NulFree(rest) && 1 < |b|
    requires newline == (var k := Find(rest[..seen], '\n'); if k < seen then line + k else -1)
    requires end == (if newline == -1 then |b| - 1 else newline) && (newline == -1 ==> line == 0)
    ensures CString(b', line) == LineText(rest, seen, |b| - 1)
  {
    hide Find, CString;
    var text := LineText(rest, seen, |b| - 1);
    var k := Find(rest[..seen], '\n');
    if k < seen {
      assert b[line..line + k] == b[line..bufread][..k] == rest[..k];
      CutAt(b, b', line, end, rest[..k]);
    } else if seen == |b| - 1 {
      assert b[line..line + seen] == rest[..seen];
      CutAt(b, b', line, end, rest[..seen]);
    } else {
      assert b'[line..line + seen] == b[line..bufread];
      CStringIs(b', line, rest[..seen]);
    }
  }

  lemma CutAt(b: seq<char>, b': seq<char>, line: nat, end: int, s: string)
    requires CutOff(b, b', line, end) && end == line + |s| && b[line..end] == s && NulFree(s)
    ensures CString(b', line) == TrimCr(s)
  {
    hide CString;
    assert |s| > 0 ==> s[|s| - 1] == b[end - 1];
    assert b'[line..line + |TrimCr(s)|] == TrimCr(s);
    CStringIs(b', line, TrimCr(s));
  }

  lemma CutReady(
    b: seq<char>, b': seq<char>, file: string, pos: nat, line: nat, newline: int, bufread: nat, end: int, rest: string,
    seen: nat)
    requires CutOff(b, b', line, end) && Found(b, file, pos, line, newline, bufread, rest, seen) && 1 < |b|
    requires end == (if newline == -1 then |b| - 1 else newline) && (newline == -1 ==> line == 0)
    ensures Ready(b', file, pos, end, bufread, rest[Consumed(rest, seen)..], seen - Consumed(rest, seen))
  {
    hide Find;
    var c := Consumed(rest, seen);
    assert rest[c..][seen - c..] == rest[seen..];
    if newline != -1 {
      assert b'[newline + 1..bufread] == b[newline + 1..bufread] == b[line..bufread][c..] ==
        rest[..seen][c..] == rest[c..][..seen - c];
    }
  }

  // ----- the values

  class Config {
    const names: seq<string>
    var vals: seq<ConfigVal>

    ghost predicate Valid()
      reads this
    {
      |vals| == |names|
    }

    constructor (names: seq<string>)
      ensures Valid() && this.names == names && Blank(vals)
    {
      this.names := names;
      vals := seq(|names|, _ => ConfigVal("", false, false, false));
    }

    /** process_config_line when filling in values; false stands for the fatal error. */
    method ProcessConfigLine(line: string, appSpecific: bool, overwrite: bool) returns (ok: bool)
      requires Valid()
      modifies `vals
      ensures Valid() && (ok <==> Accepted(names, line))
      ensures ok ==> vals == UpdatedAll(old(vals), names, line, appSpecific, overwrite)
      ensures ok <==>
        forall i :: 0 <= i < |names| && names[i] <= line ==> '=' !in names[i] && names[i] + "=" <= line
      ensures ok ==> forall i :: 0 <= i < |names| ==>
        vals[i] ==
          if names[i] + "=" <= line && (!old(vals)[i].hasValue || overwrite) then
            var v := line[|names[i]| + 1..];
            ConfigVal(if |v| <= 2048 then v else v[..2048], true, appSpecific, false)
          else old(vals)[i]
    {
      hide Find;
      ghost var vals0 := vals;
      forall i | 0 <= i < |names|
        ensures Malformed(names[i], line) <==> names[i] <= line && !('=' !in names[i] && names[i] + "=" <= line)
        ensures LineValue(names[i], line) ==
          if '=' !in names[i] && names[i] + "=" <= line then Some(line[|names[i]| + 1..]) else None
        ensures names[i] + "=" <= line ==> names[i] <= line
      {
        LineForm(names[i], line);
      }
      var i := 0;
      while i < |names|
        invariant i <= |names| && Valid() && forall j :: 0 <= j < i ==> !Malformed(names[j], line)
        invariant forall j :: 0 <= j < |vals| ==>
          vals[j] == if j < i then Updated(vals0[j], names[j], line, appSpecific, overwrite) else vals0[j]
      {
        if StartsWith(line, names[i]) {
          var val := Find(line, '=');
          if val == |line| || val != |names[i]| {
            return false;
          } else if !vals[i].hasValue || overwrite {
            vals := vals[i := ConfigVal(Stored(line[val + 1..]), true, appSpecific, false)];
          }
        }
        i := i + 1;
      }
      ok := true;
    }

    /** read_config_file */
    method ReadConfigFile(file: string, buf: array<char>, appSpecific: bool, overwrite: bool) returns (ok: bool)
      requires Valid() && 1 < buf.Length && NulFree(file)
      modifies `vals, buf
      ensures Valid()
      ensures var r := Applied(old(vals), names, Wanted(Windowed(file, 0, buf.Length - 1)), appSpecific, overwrite);
        ok == r.Some? && (ok ==> vals == r.value)
    {
      hide Find, Windowed, Applied, Wanted, Look, LineText, Consumed, UpdatedAll, Accepted, Ready, Found;
      var newline, bufread, pos := -1, 0, 0;
      ghost var n, vals0, rest, done := buf.Length - 1, vals, file, [];
      ghost var seen: nat := 0;
      ReadStart(buf[..], file, vals0, names, appSpecific, overwrite, n);
      while true
        invariant Valid() && Ready(buf[..], file, pos, newline, bufread, rest, seen) && seen <= |rest|
        invariant Windowed(file, 0, n) == done + Windowed(rest, seen, n)
        invariant Applied(vals0, names, Wanted(done), appSpecific, overwrite) == Some(vals)
        decreases |rest|
      {
        var eof, line;
        eof, pos, line, newline, bufread := NextLine(file, pos, buf, newline, bufread, rest, seen);
        if eof {
          WindowedEnd(rest, seen, n);
          return true;
        }
        WindowedNext(rest, seen, n);
        ghost var s := Look(rest, seen, n);
        var text;
        text, newline := CutLine(buf, line, newline, bufread, file, pos, rest, s);
        WantedSnoc(done, text);
        ghost var more := Windowed(rest[Consumed(rest, s)..], s - Consumed(rest, s), n);
        assert done + ([text] + more) == (done + [text]) + more;
        ghost var before := Wanted(done);
        done, rest, seen := done + [text], rest[Consumed(rest, s)..], s - Consumed(rest, s);
        if !(text == "" || text[0] == '#') {
          AppliedSnoc(vals0, names, before, text, appSpecific, overwrite);
          var good := ProcessConfigLine(text, appSpecific, overwrite);
          if !good {
            WantedMore(done, Windowed(rest, seen, n));
            AppliedStuck(vals0, names, Wanted(done), Wanted(Windowed(rest, seen, n)), appSpecific, overwrite);
            return false;
          }
        }
      }
    }

    /** set_config_from_env; env[i] is what getenv says for the i-th variable. */
    method SetConfigFromEnv(env: seq<Option<string>>)
      requires Valid() && |env| == |names|
      modifies `vals
      ensures Valid() && forall i :: 0 <= i < |vals| ==> vals[i] == FromEnv(old(vals)[i], env[i])
      ensures forall i :: 0 <= i < |vals| ==>
        vals[i] ==
          if !old(vals)[i].hasValue && env[i].Some? then
            var v := env[i].value;
            ConfigVal(if |v| <= 2048 then v else v[..2048], true, false, true)
          else old(vals)[i]
    {
      ghost var vals0 := vals;
      var i := 0;
      while i < |names|
        invariant i <= |names| && Valid()
        invariant forall j :: 0 <= j < |vals| ==> vals[j] == if j < i then FromEnv(vals0[j], env[j]) else vals0[j]
      {
        if !vals[i].hasValue {
          if env[i].Some? {
            vals := vals[i := ConfigVal(Stored(env[i].value), true, false, true)];
          }
        }
        i := i + 1;
      }
    }

    /** The end of config_read, once the files are chosen: the app file, the default file, and the
        environment if it is this process that is configured. */
    method ConfigRead(
      app: Option<string>, default: Option<string>, env: seq<Option<string>>, thisProcess: bool, buf: array<char>)
      returns (ok: bool)
      requires Valid() && Blank(vals) && 1 < buf.Length && |env| == |names|
      requires (app.Some? ==> NulFree(app.value)) && (default.Some? ==> NulFree(default.value))
      modifies `vals, buf
      ensures Valid()
      ensures ok <==>
        AllAccepted(names, FileLines(app, buf.Length - 1)) &&
        AllAccepted(names, FileLines(default, buf.Length - 1))
      ensures ok ==> forall i :: 0 <= i < |names| ==>
        vals[i] == Layered(
          names[i], FileLines(app, buf.Length - 1), FileLines(default, buf.Length - 1),
          if thisProcess then env[i] else None)
      ensures var a, d := FileLines(app, buf.Length - 1), FileLines(default, buf.Length - 1);
        ok <==> forall line, i :: (line in a || line in d) && 0 <= i < |names| && names[i] <= line ==>
          '=' !in names[i] && names[i] + "=" <= line
      ensures var a := FileLines(app, buf.Length - 1);
        ok ==> forall i, k :: 0 <= i < |names| && 0 <= k < |a| && FirstAt(names[i] + "=", a, k) ==>
          var v := a[k][|names[i]| + 1..];
          vals[i] == ConfigVal(if |v| <= 2048 then v else v[..2048], true, true, false)
      ensures var a, d := FileLines(app, buf.Length - 1), FileLines(default, buf.Length - 1);
        ok ==> forall i, k ::
          0 <= i < |names| && 0 <= k < |d| && NoneAt(names[i] + "=", a) && FirstAt(names[i] + "=", d, k) ==>
          var v := d[k][|names[i]| + 1..];
          vals[i] == ConfigVal(if |v| <= 2048 then v else v[..2048], true, false, false)
      ensures var a, d := FileLines(app, buf.Length - 1), FileLines(default, buf.Length - 1);
        ok ==> forall i :: 0 <= i < |names| && NoneAt(names[i] + "=", a) && NoneAt(names[i] + "=", d) ==>
          vals[i] ==
            if thisProcess && env[i].Some? then
              var v := env[i].value;
              ConfigVal(if |v| <= 2048 then v else v[..2048], true, false, true)
            else ConfigVal("", false, false, false)
    {
      hide Applied, Windowed, Wanted, FirstValue, NulFree, AllAccepted, Layered, FromEnv;
      ghost var n, v0 := buf.Length - 1, vals;
      NoLines(vals, names);
      AcceptedForm(names, FileLines(app, n), FileLines(default, n));
      AppliedAccepted(v0, names, FileLines(app, n), true);
      ok := true;
      if app.Some? {
        ok := ReadConfigFile(app.value, buf, true, false);
        if !ok {
          return;
        }
      }
      ghost var v1 := vals;
      NoLines(vals, names);
      AppliedAccepted(v1, names, FileLines(default, n), false);
      if default.Some? {
        ok := ReadConfigFile(default.value, buf, false, false);
        if !ok {
          return;
        }
      }
      ghost var v2 := vals;
      ghost var env' := if thisProcess then env else seq(|env|, _ => None);
      forall i | 0 <= i < |names|
        ensures FromEnv(v2[i], env'[i]) == Layered(names[i], FileLines(app, n), FileLines(default, n), env'[i])
      {
        LayeredIs(v0, names, FileLines(app, n), FileLines(default, n), env', v1, v2, i);
      }
      forall i | 0 <= i < |names|
        ensures LayeredAs(names[i], FileLines(app, n), FileLines(default, n), env'[i])
      {
        LayeredForm(names[i], names, FileLines(app, n), FileLines(default, n), env'[i]);
      }
      if thisProcess {
        SetConfigFromEnv(env);
      } else {
        forall i | 0 <= i < |names| ensures FromEnv(v2[i], env'[i]) == v2[i] { NoEnv(v2[i]); }
      }
    }
  }

  predicate AllAccepted(names: seq<string>, lines: seq<string>) {
    forall k :: 0 <= k < |lines| ==> Accepted(names, lines[k])
  }

  /** Reading fails exactly when some line is malformed. */
  lemma {:induction false} AppliedAccepted(
    vals: seq<ConfigVal>, names: seq<string>, lines: seq<string>, appSpecific: bool)
    requires |vals| == |names|
    ensures Applied(vals, names, lines, appSpecific, false).Some? <==> AllAccepted(names, lines)
    decreases |lines|
  {
    if |lines| > 0 {
      AppliedAccepted(UpdatedAll(vals, names, lines[0], appSpecific, false), names, lines[1..], appSpecific);
      assert AllAccepted(names, lines) <==> Accepted(names, lines[0]) && AllAccepted(names, lines[1..]) by {
        assert lines == [lines[0]] + lines[1..];
      }
    }
  }

  lemma NoLines(vals: seq<ConfigVal>, names: seq<string>)
    requires |vals| == |names|
    ensures Applied(vals, names, [], true, false) == Some(vals) && Applied(vals, names, [], false, false) == Some(vals)
  {
  }

  lemma NoEnv(v: ConfigVal)
    ensures FromEnv(v, None) == v
  {
  }

  // ----- layering

  /** No line starts with s. */
  predicate NoneAt(s: string, lines: seq<string>) { forall j :: 0 <= j < |lines| ==> !(s <= lines[j]) }

  /** The k-th line is the first that starts with s. */
  predicate FirstAt(s: string, lines: seq<string>, k: nat) {
    k < |lines| && s <= lines[k] && forall j :: 0 <= j < k ==> !(s <= lines[j])
  }

  lemma {:induction false} FirstValueIs(name: string, names: seq<string>, lines: seq<string>)
    requires AllAccepted(names, lines) && name in names
    ensures forall k :: 0 <= k < |lines| && FirstAt(name + "=", lines, k) ==>
      FirstValue(name, lines) == Some(lines[k][|name| + 1..])
    ensures NoneAt(name + "=", lines) ==> FirstValue(name, lines) == None
  {
    hide LineValue, Malformed;
    if |lines| > 0 {
      assert lines == [lines[0]] + lines[1..];
      LineForm(name, lines[0]);
      assert Accepted(names, lines[0]);
      FirstValueIs(name, names, lines[1..]);
      forall k | 0 <= k < |lines| && FirstAt(name + "=", lines, k)
        ensures FirstValue(name, lines) == Some(lines[k][|name| + 1..])
      {
        if k > 0 { assert FirstAt(name + "=", lines[1..], k - 1) && lines[k] == lines[1..][k - 1]; }
      }
    }
  }

  /** The layered value, by the lines themselves. */
  ghost predicate LayeredAs(name: string, a: seq<string>, d: seq<string>, env: Option<string>) {
    && (forall k :: 0 <= k < |a| && FirstAt(name + "=", a, k) ==>
          Layered(name, a, d, env) == ConfigVal(Stored(a[k][|name| + 1..]), true, true, false))
    && (forall k :: 0 <= k < |d| && NoneAt(name + "=", a) && FirstAt(name + "=", d, k) ==>
          Layered(name, a, d, env) == ConfigVal(Stored(d[k][|name| + 1..]), true, false, false))
    && (NoneAt(name + "=", a) && NoneAt(name + "=", d) ==>
          Layered(name, a, d, env) ==
          if env.Some? then ConfigVal(Stored(env.value), true, false, true) else ConfigVal("", false, false, false))
  }

  lemma AcceptedForm(names: seq<string>, a: seq<string>, d: seq<string>)
    ensures AllAccepted(names, a) && AllAccepted(names, d) <==>
      forall line, i :: (line in a || line in d) && 0 <= i < |names| && names[i] <= line ==>
        '=' !in names[i] && names[i] + "=" <= line
  {
    hide LineValue, Malformed;
    forall line, i | 0 <= i < |names|
      ensures Malformed(names[i], line) <==> names[i] <= line && !('=' !in names[i] && names[i] + "=" <= line)
    {
      LineForm(names[i], line);
    }
    if forall line, i :: (line in a || line in d) && 0 <= i < |names| && names[i] <= line ==>
        '=' !in names[i] && names[i] + "=" <= line
    {
      forall k | 0 <= k < |a| ensures Accepted(names, a[k]) { assert a[k] in a; }
      forall k | 0 <= k < |d| ensures Accepted(names, d[k]) { assert d[k] in d; }
    }
  }

  lemma LayeredForm(name: string, names: seq<string>, a: seq<string>, d: seq<string>, env: Option<string>)
    requires AllAccepted(names, a) && AllAccepted(names, d) && name in names
    ensures LayeredAs(name, a, d, env)
  {
    hide FirstValue, AllAccepted, FirstAt, NoneAt, Stored;
    FirstValueIs(name, names, a);
    FirstValueIs(name, names, d);
  }

  function FromEnv(v: ConfigVal, env: Option<string>): ConfigVal {
    if !v.hasValue && env.Some? then ConfigVal(Stored(env.value), true, false, true) else v
  }

  /** The lines of a file that may not be there. */
  function FileLines(file: Option<string>, n: nat): seq<string>
    requires 0 < n
  {
    if file.Some? then Wanted(Windowed(file.value, 0, n)) else []
  }

  /** The value of one variable: the first in the app file, else the first in the default file,
      else that of the environment. */
  function Layered(name: string, app: seq<string>, default: seq<string>, env: Option<string>): ConfigVal {
    if FirstValue(name, app).Some? then ConfigVal(Stored(FirstValue(name, app).value), true, true, false)
    else if FirstValue(name, default).Some? then ConfigVal(Stored(FirstValue(name, default).value), true, false, false)
    else if env.Some? then ConfigVal(Stored(env.value), true, false, true)
    else ConfigVal("", false, false, false)
  }

  predicate Blank(vals: seq<ConfigVal>) {
    forall i :: 0 <= i < |vals| ==> vals[i] == ConfigVal("", false, false, false)
  }

  lemma LayeredIs(
    vals: seq<ConfigVal>, names: seq<string>, app: seq<string>, default: seq<string>, env: seq<Option<string>>,
    v1: seq<ConfigVal>, v2: seq<ConfigVal>, i: nat)
    requires |vals| == |names| == |env| && i < |names| && Blank(vals)
    requires Applied(vals, names, app, true, false) == Some(v1) && Applied(v1, names, default, false, false) == Some(v2)
    ensures FromEnv(v2[i], env[i]) == Layered(names[i], app, default, env[i])
  {
    hide Applied, FirstValue;
    FirstWins(vals, names, app, true, i);
    FirstWins(v1, names, default, false, i);
  }

  /** The values config_read leaves, when every file's lines are terminated, fit the buffer and are
      well formed: those of the simple split of the files. */
  lemma LayeredSplit(name: string, app: string, default: string, env: Option<string>, n: nat)
    requires 0 < n && Tail(app) == "" && AllFit(app, n) && Tail(default) == "" && AllFit(default, n)
    ensures Layered(name, FileLines(Some(app), n), FileLines(Some(default), n), env) ==
      Layered(name, Wanted(Trimmed(Split(app))), Wanted(Trimmed(Split(default))), env)
  {
    WindowedIsSplit(app, 0, n);
    WindowedIsSplit(default, 0, n);
  }

  lemma ReadStart(
    b: seq<char>, file: string, vals: seq<ConfigVal>, names: seq<string>, appSpecific: bool, overwrite: bool, n: nat)
    requires NulFree(file) && |vals| == |names| && 0 < n
    ensures Ready(b, file, 0, -1, 0, file, 0) && Windowed(file, 0, n) == [] + Windowed(file, 0, n)
    ensures Applied(vals, names, Wanted([]), appSpecific, overwrite) == Some(vals)
  {
    hide Windowed;
  }

  lemma WindowedEnd(rest: string, seen: nat, n: nat)
    requires 0 < n && seen <= |rest| && Find(rest[..seen], '\n') == seen == |rest|
    ensures Windowed(rest, seen, n) == [] && forall done: seq<string> :: done + Windowed(rest, seen, n) == done
  {
    hide Find;
  }

  lemma WantedSnoc(a: seq<string>, text: string)
    ensures Wanted(a + [text]) == if Meaningful(text) then Wanted(a) + [text] else Wanted(a)
  {
    WantedMore(a, [text]);
    assert Wanted([text]) == (if Meaningful(text) then [text] else []) + Wanted([text][1..]);
  }

  /** What a file of terminated lines that fit the buffer gives: one wanted line more for every line that
      is not empty and no comment, without a carriage return at its end. */
  lemma FileLinesMore(f: string, l: string, n: nat)
    requires (f == "" || f[|f| - 1] == '\n') && '\n' !in l && |l| < n
    requires forall i, j :: 0 <= i <= j <= |f| && '\n' !in f[i..j] ==> j - i < n
    ensures FileLines(None, n) == [] && FileLines(Some(""), n) == []
    ensures FileLines(Some(f + l + "\n"), n) == FileLines(Some(f), n) +
      if l == "" || l == "\r" || l[0] == '#' then []
      else [if l[|l| - 1] == '\r' then l[..|l| - 1] else l]
  {
    hide Windowed, Split, Trimmed, Wanted, Tail, AllFit;
    assert ShortStretches(f, n);
    SplitMore(f, l, n);
    WindowedIsSplit(f, 0, n);
    WindowedIsSplit(f + l + "\n", 0, n);
    WantedSnoc(Trimmed(Split(f)), TrimCr(l));
    EmptyFile(n);
    WindowedIsSplit("", 0, n);
    assert Wanted([]) == [] by { NothingWanted(); }
  }

  lemma NothingWanted()
    ensures Wanted([]) == []
  {
  }

  /** A malformed line is fatal whatever follows. */
  lemma {:induction false} AppliedStuck(
    vals: seq<ConfigVal>, names: seq<string>, a: seq<string>, b: seq<string>, appSpecific: bool, overwrite: bool)
    requires |vals| == |names| && Applied(vals, names, a, appSpecific, overwrite).None?
    ensures Applied(vals, names, a + b, appSpecific, overwrite).None?
    decreases |a|
  {
    assert |a| > 0;
    assert (a + b)[0] == a[0] && (a + b)[1..] == a[1..] + b;
    if Accepted(names, a[0]) {
      AppliedStuck(UpdatedAll(vals, names, a[0], appSpecific, overwrite), names, a[1..], b, appSpecific, overwrite);
    }
  }
}
