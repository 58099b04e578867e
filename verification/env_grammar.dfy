/** The line grammar of `loadEnv` stated independently of the parser, and
    the proof that the parser of index.js:10 accepts exactly the lines of
    that grammar, with the key and value the grammar assigns. */
module EnvGrammar {
  import opened Wrappers
  import opened Text
  import opened EnvFile

  /** The grammar of an assigning line, stated by positions: white space
      before `i`, the key from `i` to `j`, white space from `j` to `e`, `=`
      at `e`, and a value part after it. */
  predicate AssignsAt(line: string, i: int, j: int, e: int, k: string, v: string)
  {
    ShapeAt(line, i, j, e) && k == line[i..j] && ValueOf(line[e + 1..], v)
  }

  /** The value part `\s*(.*)\s*$` stated by positions: white space before
      `p`, the captured text from `p` to `q` with no line terminator in it
      (`.` matches none), and white space from `q` to the end. The value is
      the capture trimmed and then unquoted. */
  predicate ValueAt(rest: string, p: int, q: int, v: string)
  {
    0 <= p <= q <= |rest|
    && AllSpace(rest[..p])
    && (forall x :: p <= x < q ==> !IsLineTerminator(rest[x]))
    && AllSpace(rest[q..])
    && v == Unquote(Trim(rest[p..q]))
  }

  predicate ValueOf(rest: string, v: string)
  {
    exists p, q :: 0 <= p <= q <= |rest| && ValueAt(rest, p, q, v)
  }

  /** Two ways of trimming `s` that both leave no white space at the ends
      leave the same text. */
  lemma TrimUnique(s: string, r1: string, i1: int, r2: string, i2: int)
    requires TrimmedAt(s, r1, i1) && (r1 == [] || (!IsSpace(r1[0]) && !IsSpace(r1[|r1| - 1])))
    requires TrimmedAt(s, r2, i2) && (r2 == [] || (!IsSpace(r2[0]) && !IsSpace(r2[|r2| - 1])))
    ensures r1 == r2
  {
    StartsAfterSpace(s, r1, i1, i2);
    StartsAfterSpace(s, r2, i2, i1);
    EndsBeforeSpace(s, r1, i1, i2 + |r2|);
    EndsBeforeSpace(s, r2, i2, i1 + |r1|);
  }

  /** A trimmed text that starts with a non-white character starts after
      any white prefix of `s`. */
  lemma StartsAfterSpace(s: string, r: string, i: int, k: int)
    requires TrimmedAt(s, r, i) && (r == [] || !IsSpace(r[0]))
    requires 0 <= k <= |s| && AllSpace(s[..k])
    ensures r != [] ==> k <= i
  {
    forall x | 0 <= x < k
      ensures IsSpace(s[x])
    {
      assert s[..k][x] == s[x];
    }
    assert r != [] ==> s[i] == r[0];
  }

  /** A trimmed text that ends with a non-white character ends before any
      white suffix of `s`. */
  lemma EndsBeforeSpace(s: string, r: string, i: int, k: int)
    requires TrimmedAt(s, r, i) && (r == [] || !IsSpace(r[|r| - 1]))
    requires 0 <= k <= |s| && AllSpace(s[k..])
    ensures r != [] ==> i + |r| <= k
  {
    forall x | k <= x < |s|
      ensures IsSpace(s[x])
    {
      assert s[k..][x - k] == s[x];
    }
    assert r != [] ==> s[i + |r| - 1] == r[|r| - 1];
  }

  /** White space around a capture, plus the white space that trimming the
      capture removes, is the white space that trimming the whole text
      removes. */
  lemma TrimmedInside(rest: string, p: int, q: int, t: string, i: int)
    requires 0 <= p <= q <= |rest| && AllSpace(rest[..p]) && AllSpace(rest[q..])
    requires TrimmedAt(rest[p..q], t, i)
    ensures TrimmedAt(rest, t, p + i)
  {
    var m := rest[p..q];
    var n := p + i + |t|;
    forall x | 0 <= x < p + i
      ensures IsSpace(rest[x])
    {
      if x < p {
        assert rest[..p][x] == rest[x];
      } else {
        assert m[..i][x - p] == rest[x];
      }
    }
    forall x | n <= x < |rest|
      ensures IsSpace(rest[x])
    {
      if x < q {
        assert m[i + |t|..][x - n] == rest[x];
      } else {
        assert rest[q..][x - q] == rest[x];
      }
    }
    assert AllSpace(rest[..p + i]);
    assert AllSpace(rest[n..]);
    assert t == m[i..i + |t|];
    assert forall x :: 0 <= x < |t| ==> t[x] == rest[p + i + x];
    assert t == rest[p + i..n];
  }

  /** Any way of removing white space from the ends of `s` that leaves no
      white space at the ends is what `trim` does. */
  lemma TrimmedAtIsTrim(s: string, t: string, i: int)
    requires TrimmedAt(s, t, i) && (t == [] || (!IsSpace(t[0]) && !IsSpace(t[|t| - 1])))
    ensures Trim(s) == t
  {
    TrimSpec(s);
    var i' :| TrimmedAt(s, Trim(s), i');
    TrimUnique(s, t, i, Trim(s), i');
  }

  /** The trimmed capture, found at `i` inside it, is the whole text
      trimmed. */
  lemma TrimCaptureAt(rest: string, p: int, q: int, t: string, i: int)
    requires 0 <= p <= q <= |rest| && AllSpace(rest[..p]) && AllSpace(rest[q..])
    requires TrimmedAt(rest[p..q], t, i) && (t == [] || (!IsSpace(t[0]) && !IsSpace(t[|t| - 1])))
    ensures Trim(rest) == t
  {
    TrimmedInside(rest, p, q, t, i);
    TrimmedAtIsTrim(rest, t, p + i);
  }

  /** Trimming a capture with white space around it is trimming the whole
      text. */
  lemma TrimCapture(rest: string, p: int, q: int)
    requires 0 <= p <= q <= |rest| && AllSpace(rest[..p]) && AllSpace(rest[q..])
    ensures Trim(rest[p..q]) == Trim(rest)
  {
    var t := Trim(rest[p..q]);
    TrimSpec(rest[p..q]);
    var i :| TrimmedAt(rest[p..q], t, i);
    TrimCaptureAt(rest, p, q, t, i);
  }

  /** Trimming keeps only characters of the text, so it adds no line
      terminator. */
  lemma TrimNoTerminator(m: string)
    requires forall x :: 0 <= x < |m| ==> !IsLineTerminator(m[x])
    ensures !HasLineTerminator(Trim(m))
  {
    var t := Trim(m);
    TrimSpec(m);
    var i :| TrimmedAt(m, t, i);
    forall x | 0 <= x < |t|
      ensures !IsLineTerminator(t[x])
    {
      assert t[x] == m[i + x];
    }
  }

  /** A trimmed infix of `rest` without line terminators is a capture of
      the value part. */
  lemma CaptureAt(rest: string, t: string, i: int)
    requires TrimmedAt(rest, t, i) && (t == [] || (!IsSpace(t[0]) && !IsSpace(t[|t| - 1])))
    requires !HasLineTerminator(t)
    ensures ValueAt(rest, i, i + |t|, Unquote(t))
  {
    var q := i + |t|;
    assert rest[i..q] == t;
    TrimTrimmed(t);
    forall x | i <= x < q
      ensures !IsLineTerminator(rest[x])
    {
      assert rest[x] == t[x - i];
    }
  }

  /** A value the parser reads is a value of the positional grammar. */
  lemma LineValueSound(rest: string, v: string)
    requires LineValue(rest) == Some(v)
    ensures ValueOf(rest, v)
  {
    var t := Trim(rest);
    TrimSpec(rest);
    var i :| TrimmedAt(rest, t, i);
    CaptureAt(rest, t, i);
  }

  /** A value of the positional grammar is the value the parser reads. */
  lemma LineValueComplete(rest: string, p: int, q: int, v: string)
    requires ValueAt(rest, p, q, v)
    ensures LineValue(rest) == Some(v)
  {
    var m := rest[p..q];
    forall x | 0 <= x < |m|
      ensures !IsLineTerminator(m[x])
    {
      assert m[x] == rest[p + x];
    }
    TrimNoTerminator(m);
    TrimCapture(rest, p, q);
  }

  /** The parser's value step and the positional value part agree. */
  lemma {:induction false} LineValueIff(rest: string, v: string)
    ensures LineValue(rest) == Some(v) <==> ValueOf(rest, v)
  {
    if LineValue(rest) == Some(v) {
      LineValueSound(rest, v);
    }
    if ValueOf(rest, v) {
      var p, q :| 0 <= p <= q <= |rest| && ValueAt(rest, p, q, v);
      LineValueComplete(rest, p, q, v);
    }
  }

  /** The positions split `line` into white space, a key, white space and
      `=`. */
  predicate ShapeAt(line: string, i: int, j: int, e: int)
  {
    0 <= i < j <= e < |line|
    && (forall x :: 0 <= x < i ==> IsSpace(line[x]))
    && (forall x :: i <= x < j ==> IsKeyChar(line[x]))
    && (forall x :: j <= x < e ==> IsSpace(line[x]))
    && line[e] == '='
  }

  /** The parser's runs stop exactly at the positions of the shape. */
  lemma RunsAt(line: string, i: int, j: int, e: int)
    requires ShapeAt(line, i, j, e)
    ensures SpaceRun(line, 0) == i && KeyRun(line, i) == j && SpaceRun(line, j) == e
  {
    KeyCharNotSpace(line[i]);
    SpaceRunUnique(line, 0, i);
    KeyCharNotSpace(line[j]);
    KeyRunUnique(line, i, j);
    SpaceRunUnique(line, j, e);
  }

  /** A run ends where the grammar says it ends. */
  lemma SpaceRunUnique(s: string, from: nat, k: nat)
    requires from <= k <= |s|
    requires forall x :: from <= x < k ==> IsSpace(s[x])
    requires k == |s| || !IsSpace(s[k])
    ensures SpaceRun(s, from) == k
  {
    if SpaceRun(s, from) != k {
      assert false;
    }
  }

  lemma KeyRunUnique(s: string, from: nat, k: nat)
    requires from <= k <= |s|
    requires forall x :: from <= x < k ==> IsKeyChar(s[x])
    requires k == |s| || !IsKeyChar(s[k])
    ensures KeyRun(s, from) == k
  {
    if KeyRun(s, from) != k {
      assert false;
    }
  }

  /** A line that the parser accepts has the shape of the grammar. */
  lemma {:induction false} ParseLineSound(line: string)
    requires ParseLine(line).Some?
    ensures exists i, j, e :: AssignsAt(line, i, j, e, ParseLine(line).value.key, ParseLine(line).value.value)
  {
    var i := SpaceRun(line, 0);
    var j := KeyRun(line, i);
    var e := SpaceRun(line, j);
    assert ParseLine(line) == MatchAt(line, i, j, e);
    MatchAtSound(line, i, j, e);
  }

  /** A match found at the ends of the three runs has the grammar's shape. */
  lemma {:induction false} MatchAtSound(line: string, i: nat, j: nat, e: nat)
    requires i <= j <= e <= |line|
    requires forall x :: 0 <= x < i ==> IsSpace(line[x])
    requires forall x :: i <= x < j ==> IsKeyChar(line[x])
    requires forall x :: j <= x < e ==> IsSpace(line[x])
    requires MatchAt(line, i, j, e).Some?
    ensures AssignsAt(line, i, j, e, MatchAt(line, i, j, e).value.key, MatchAt(line, i, j, e).value.value)
  {
    assert ShapeAt(line, i, j, e);
    LineValueIff(line[e + 1..], MatchAt(line, i, j, e).value.value);
  }

  /** A line of the grammar's shape is accepted with that key and value. */
  lemma {:induction false} ParseLineComplete(line: string, i: int, j: int, e: int, k: string, v: string)
    requires AssignsAt(line, i, j, e, k, v)
    ensures ParseLine(line) == Some(Assignment(k, v))
  {
    RunsAt(line, i, j, e);
    LineValueIff(line[e + 1..], v);
    assert ParseLine(line) == MatchAt(line, i, j, e);
  }

  /** No key character is white space, and neither is `=`. */
  lemma KeyCharNotSpace(c: char)
    ensures IsKeyChar(c) ==> !IsSpace(c)
    ensures IsSpace(c) ==> !IsKeyChar(c)
    ensures !IsSpace('=') && !IsKeyChar('=')
  {
  }

  /** The parser and the grammar agree on every line. */
  lemma {:induction false} ParseLineIff(line: string, k: string, v: string)
    ensures ParseLine(line) == Some(Assignment(k, v)) <==> exists i, j, e :: AssignsAt(line, i, j, e, k, v)
  {
    if ParseLine(line) == Some(Assignment(k, v)) {
      ParseLineSound(line);
    }
    if exists i, j, e :: AssignsAt(line, i, j, e, k, v) {
      var i, j, e :| AssignsAt(line, i, j, e, k, v);
      ParseLineComplete(line, i, j, e, k, v);
    }
  }
}
