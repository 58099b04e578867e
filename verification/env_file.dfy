/** `loadEnv` of index.js:6-22: reads `KEY=value` lines of a `.env` file
    into the process environment, modelled as a map. */
module EnvFile {
  import opened Wrappers
  import opened Seqs
  import opened Text

  /** A character of the regular expression class `[\w.-]`. */
  predicate IsKeyChar(c: char)
  {
    ('A' <= c <= 'Z') || ('a' <= c <= 'z') || ('0' <= c <= '9') || c == '_' || c == '.' || c == '-'
  }

  predicate HasLineTerminator(s: string)
  {
    exists i :: 0 <= i < |s| && IsLineTerminator(s[i])
  }

  /** `content.split(/\r?\n/)`: the pieces between line feeds, each but the
      last without the carriage return that may precede its line feed. */
  function SplitLines(content: string): (lines: seq<string>)
    ensures |lines| == |Split(content, '\n')|
    ensures forall i :: 0 <= i < |lines| ==> '\n' !in lines[i]
    ensures forall i :: 0 <= i < |lines| ==>
              Split(content, '\n')[i] == lines[i]
              || (i < |lines| - 1 && Split(content, '\n')[i] == lines[i] + "\r")
    ensures forall i :: 0 <= i < |lines| - 1 ==>
              (Split(content, '\n')[i] == lines[i] + "\r" <==> EndsWithCarriageReturn(Split(content, '\n')[i]))
    ensures lines[|lines| - 1] == Split(content, '\n')[|lines| - 1]
  {
    var pieces := Split(content, '\n');
    seq(|pieces|, i requires 0 <= i < |pieces| =>
      if i < |pieces| - 1 then DropCarriageReturn(pieces[i]) else pieces[i])
  }

  predicate EndsWithCarriageReturn(piece: string)
  {
    |piece| > 0 && piece[|piece| - 1] == '\r'
  }

  /** Drops one carriage return at the end of `piece`, if there is one. */
  function DropCarriageReturn(piece: string): (line: string)
    ensures piece == line || piece == line + "\r"
    ensures piece == line + "\r" <==> EndsWithCarriageReturn(piece)
    ensures forall c :: c in line ==> c in piece
  {
    if EndsWithCarriageReturn(piece) then
      assert piece == piece[..|piece| - 1] + "\r";
      piece[..|piece| - 1]
    else piece
  }

  /** The end of the run of white space that starts at `from` (`\s*`). */
  function SpaceRun(s: string, from: nat): (k: nat)
    requires from <= |s|
    ensures from <= k <= |s|
    ensures forall x :: from <= x < k ==> IsSpace(s[x])
    ensures k == |s| || !IsSpace(s[k])
    decreases |s| - from
  {
    if from == |s| || !IsSpace(s[from]) then from else SpaceRun(s, from + 1)
  }

  /** The end of the run of key characters that starts at `from`
      (`[\w.-]*`, greedy). */
  function KeyRun(s: string, from: nat): (k: nat)
    requires from <= |s|
    ensures from <= k <= |s|
    ensures forall x :: from <= x < k ==> IsKeyChar(s[x])
    ensures k == |s| || !IsKeyChar(s[k])
    decreases |s| - from
  {
    if from == |s| || !IsKeyChar(s[from]) then from else KeyRun(s, from + 1)
  }

  /** Strips one pair of matching double or single quotes; a lone quote
      character becomes the empty string, as `slice(1, -1)` makes it. */
  function Unquote(v: string): (r: string)
    ensures |v| >= 2 && ((v[0] == '"' && v[|v| - 1] == '"') || (v[0] == '\'' && v[|v| - 1] == '\'')) ==>
              r == v[1..|v| - 1]
    ensures |v| == 1 && (v[0] == '"' || v[0] == '\'') ==> r == ""
    ensures |v| == 0 || !((v[0] == '"' && v[|v| - 1] == '"') || (v[0] == '\'' && v[|v| - 1] == '\'')) ==> r == v
  {
    if |v| > 0 && ((v[0] == '"' && v[|v| - 1] == '"') || (v[0] == '\'' && v[|v| - 1] == '\''))
    then (if |v| >= 2 then v[1..|v| - 1] else "")
    else v
  }

  /** An assignment `key=value` read from one line. */
  datatype Assignment = Assignment(key: string, value: string)

  /** One line matched against `^\s*([\w.-]+)\s*=\s*(.*)\s*$`: the key and
      the value, or `None` when the line does not match. The value is the
      trimmed text after the `=`; the pattern fails when that text still
      holds a line terminator, which `.` does not match. */
  function ParseLine(line: string): Option<Assignment>
  {
    var i := SpaceRun(line, 0);
    var j := KeyRun(line, i);
    MatchAt(line, i, j, SpaceRun(line, j))
  }

  /** The match once the leading white space ends at `i`, the key at `j`
      and the white space after it at `e`. */
  function MatchAt(line: string, i: nat, j: nat, e: nat): Option<Assignment>
    requires i <= j <= e <= |line|
  {
    if j == i || e == |line| || line[e] != '=' then None
    else
      var value := LineValue(line[e + 1..]);
      if value.None? then None else Some(Assignment(line[i..j], value.value))
  }

  /** The value part `\s*(.*)\s*$` after the `=`: the trimmed rest,
      unquoted, or `None` when the trimmed rest still holds a line
      terminator. */
  function LineValue(rest: string): Option<string>
  {
    var value := Trim(rest);
    if HasLineTerminator(value) then None else Some(Unquote(value))
  }

  /** `process.env[key] = value` for every line that matched, in order. */
  function ApplyAll(env: map<string, string>, parsed: seq<Option<Assignment>>): map<string, string>
    decreases |parsed|
  {
    if parsed == [] then env
    else if parsed[0].Some? then ApplyAll(env[parsed[0].value.key := parsed[0].value.value], parsed[1..])
    else ApplyAll(env, parsed[1..])
  }

  /** Every line parsed on its own. */
  function ParseAll(lines: seq<string>): (parsed: seq<Option<Assignment>>)
    ensures |parsed| == |lines|
    ensures forall i :: 0 <= i < |lines| ==> parsed[i] == ParseLine(lines[i])
  {
    seq(|lines|, i requires 0 <= i < |lines| => ParseLine(lines[i]))
  }

  /** `loadEnv`: `file` is the content of the file, `None` when it is
      missing or unreadable, in which case nothing changes. */
  function LoadEnv(env: map<string, string>, file: Option<string>): (r: map<string, string>)
    ensures file.None? ==> r == env
  {
    if file.None? then env else ApplyAll(env, ParseAll(SplitLines(file.value)))
  }

  /** The value of the last assignment to `key`, if any. */
  function LastValue(parsed: seq<Option<Assignment>>, key: string): Option<string>
  {
    if parsed == [] then None
    else
      var later := LastValue(parsed[1..], key);
      if later.Some? then later
      else if parsed[0].Some? && parsed[0].value.key == key then Some(parsed[0].value.value)
      else None
  }

  /** Last write wins: a key ends up with the value of the last line that
      assigns it, and keeps its old value (or stays absent) when no line
      assigns it. */
  lemma {:induction false} ApplyAllSpec(env: map<string, string>, parsed: seq<Option<Assignment>>, key: string)
    ensures LastValue(parsed, key).Some? ==>
              key in ApplyAll(env, parsed) && ApplyAll(env, parsed)[key] == LastValue(parsed, key).value
    ensures LastValue(parsed, key).None? ==>
              (key in ApplyAll(env, parsed) <==> key in env)
              && (key in env ==> ApplyAll(env, parsed)[key] == env[key])
    decreases |parsed|
  {
    if parsed != [] {
      var next := if parsed[0].Some? then env[parsed[0].value.key := parsed[0].value.value] else env;
      ApplyAllSpec(next, parsed[1..], key);
    }
  }

  /** The line at `n` assigns `key`. */
  predicate AssignsKey(parsed: seq<Option<Assignment>>, n: int, key: string)
    requires 0 <= n < |parsed|
  {
    parsed[n].Some? && parsed[n].value.key == key
  }

  /** `LastValue` is the value of the last assigning line: that line
      assigns the key, and no later line does. */
  lemma {:induction false} LastValueSpec(parsed: seq<Option<Assignment>>, key: string)
    ensures LastValue(parsed, key).Some? ==>
              exists n :: 0 <= n < |parsed| && parsed[n] == Some(Assignment(key, LastValue(parsed, key).value))
                && forall m :: n < m < |parsed| ==> !AssignsKey(parsed, m, key)
    ensures LastValue(parsed, key).None? ==> forall m :: 0 <= m < |parsed| ==> !AssignsKey(parsed, m, key)
  {
    if parsed != [] {
      var tail := parsed[1..];
      LastValueSpec(tail, key);
      if LastValue(tail, key).Some? {
        var n :| 0 <= n < |tail| && tail[n] == Some(Assignment(key, LastValue(tail, key).value))
                 && forall m :: n < m < |tail| ==> !AssignsKey(tail, m, key);
        assert parsed[n + 1] == tail[n];
        forall m | n + 1 < m < |parsed|
          ensures !AssignsKey(parsed, m, key)
        {
          assert parsed[m] == tail[m - 1];
          assert !AssignsKey(tail, m - 1, key);
        }
      } else {
        forall m | 1 <= m < |parsed|
          ensures !AssignsKey(parsed, m, key)
        {
          assert parsed[m] == tail[m - 1];
          assert !AssignsKey(tail, m - 1, key);
        }
      }
    }
  }

  /** `r` is what assigning the lines `parsed` in order makes of `env` for
      `key`: the value of the last line that assigns it, or, when no line
      does, its old value or no value. */
  predicate LastWins(env: map<string, string>, parsed: seq<Option<Assignment>>, key: string, r: map<string, string>)
  {
    (forall n :: 0 <= n < |parsed| && AssignsKey(parsed, n, key)
                 && (forall m :: n < m < |parsed| ==> !AssignsKey(parsed, m, key)) ==>
       key in r && r[key] == parsed[n].value.value)
    && ((forall m :: 0 <= m < |parsed| ==> !AssignsKey(parsed, m, key)) ==>
          (key in r <==> key in env) && (key in env ==> r[key] == env[key]))
  }

  /** Loading a file, line by line: a key the file assigns gets the value
      of the last line that assigns it; any other key keeps its old value,
      or stays absent. */
  lemma {:induction false} LoadEnvSpec(env: map<string, string>, content: string, key: string)
    ensures LastWins(env, ParseAll(SplitLines(content)), key, LoadEnv(env, Some(content)))
  {
    var parsed := ParseAll(SplitLines(content));
    assert LoadEnv(env, Some(content)) == ApplyAll(env, parsed);
    ApplyAllLast(env, parsed, key);
  }

  /** `ApplyAllSpec` stated by the lines themselves rather than by
      `LastValue`. */
  lemma {:induction false} ApplyAllLast(env: map<string, string>, parsed: seq<Option<Assignment>>, key: string)
    ensures LastWins(env, parsed, key, ApplyAll(env, parsed))
  {
    ApplyAllSpec(env, parsed, key);
    forall n | 0 <= n < |parsed| && AssignsKey(parsed, n, key)
               && (forall m :: n < m < |parsed| ==> !AssignsKey(parsed, m, key))
      ensures LastValue(parsed, key) == Some(parsed[n].value.value)
    {
      LastAssignment(parsed, key, n);
    }
    if forall m :: 0 <= m < |parsed| ==> !AssignsKey(parsed, m, key) {
      NoAssignment(parsed, key);
    }
  }

  /** The last assigning line determines `LastValue`. */
  lemma LastAssignment(parsed: seq<Option<Assignment>>, key: string, n: nat)
    requires n < |parsed| && AssignsKey(parsed, n, key)
    requires forall m :: n < m < |parsed| ==> !AssignsKey(parsed, m, key)
    ensures LastValue(parsed, key) == Some(parsed[n].value.value)
  {
    LastValueSpec(parsed, key);
    var n' :| 0 <= n' < |parsed| && parsed[n'] == Some(Assignment(key, LastValue(parsed, key).value))
              && forall m :: n' < m < |parsed| ==> !AssignsKey(parsed, m, key);
    assert AssignsKey(parsed, n', key);
  }

  /** Without an assigning line there is no `LastValue`. */
  lemma NoAssignment(parsed: seq<Option<Assignment>>, key: string)
    requires forall m :: 0 <= m < |parsed| ==> !AssignsKey(parsed, m, key)
    ensures LastValue(parsed, key).None?
  {
    LastValueSpec(parsed, key);
    if LastValue(parsed, key).Some? {
      var n :| 0 <= n < |parsed| && parsed[n] == Some(Assignment(key, LastValue(parsed, key).value));
      assert AssignsKey(parsed, n, key);
    }
  }
}
