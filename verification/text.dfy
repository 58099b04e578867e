/** The string operations the core relies on: `trim`, `split(',')`,
    `join(',')`, `toLowerCase` and `includes`. */
module Text {
  import opened Seqs

  /** Line terminators as ECMAScript defines them. */
  predicate IsLineTerminator(c: char)
  {
    c == '\n' || c == '\r' || c == '\U{2028}' || c == '\U{2029}'
  }

  /** The characters `String.prototype.trim` removes and the regular
      expression class `\s` matches: ECMAScript WhiteSpace (tab, vertical
      tab, form feed, space, no-break space, byte order mark and the Unicode
      space separators) together with the line terminators. */
  predicate IsSpace(c: char)
  {
    || c == '\t' || c == '\U{000B}' || c == '\U{000C}' || c == ' '
    || c == '\U{00A0}' || c == '\U{FEFF}' || c == '\U{1680}'
    || ('\U{2000}' <= c <= '\U{200A}')
    || c == '\U{202F}' || c == '\U{205F}' || c == '\U{3000}'
    || IsLineTerminator(c)
  }

  predicate AllSpace(s: string)
  {
    forall i :: 0 <= i < |s| ==> IsSpace(s[i])
  }

  /** Drops leading white space. */
  function TrimStart(s: string): (r: string)
    ensures |r| <= |s| && r == s[|s| - |r|..]
    ensures AllSpace(s[..|s| - |r|])
    ensures r == [] || !IsSpace(r[0])
  {
    if s == [] || !IsSpace(s[0]) then s
    else
      var r := TrimStart(s[1..]);
      var n := |s| - |r|;
      assert s[..n] == [s[0]] + s[1..][..n - 1];
      assert s[1..][n - 1..] == s[n..];
      r
  }

  /** Drops trailing white space. */
  function TrimEnd(s: string): (r: string)
    ensures |r| <= |s| && r == s[..|r|]
    ensures AllSpace(s[|r|..])
    ensures r == [] || !IsSpace(r[|r| - 1])
  {
    if s == [] || !IsSpace(s[|s| - 1]) then s
    else
      var r := TrimEnd(s[..|s| - 1]);
      assert s[..|s| - 1][..|r|] == s[..|r|];
      assert s[|r|..] == s[..|s| - 1][|r|..] + [s[|s| - 1]];
      r
  }

  /** `r` is what remains of `s` after removing the white space before
      position `i` and after position `i + |r|`. */
  predicate TrimmedAt(s: string, r: string, i: int)
  {
    0 <= i <= |s| - |r| && r == s[i..i + |r|] && AllSpace(s[..i]) && AllSpace(s[i + |r|..])
  }

  /** `s.trim()`. */
  function Trim(s: string): (r: string)
    ensures |r| <= |s|
    ensures r == [] || (!IsSpace(r[0]) && !IsSpace(r[|r| - 1]))
  {
    TrimEnd(TrimStart(s))
  }

  /** Trimming removes only white space, and only at the two ends: what is
      left is an infix of `s` with nothing but white space around it. */
  lemma TrimSpec(s: string)
    ensures exists i :: TrimmedAt(s, Trim(s), i)
  {
    var t := TrimStart(s);
    var r := TrimEnd(t);
    assert r == Trim(s);
    var i := |s| - |t|;
    assert t == s[i..];
    assert r == s[i..i + |r|];
    assert s[i + |r|..] == t[|r|..];
    assert TrimmedAt(s, r, i);
  }

  /** Trimming a string that has no white space at either end changes
      nothing. */
  lemma TrimTrimmed(s: string)
    requires s == [] || (!IsSpace(s[0]) && !IsSpace(s[|s| - 1]))
    ensures Trim(s) == s
  {
  }

  /** Trimming twice is trimming once. */
  lemma TrimIdempotent(s: string)
    ensures Trim(Trim(s)) == Trim(s)
  {
    TrimTrimmed(Trim(s));
  }

  /** `parts.join([sep])`. */
  function Join(parts: seq<string>, sep: char): string
  {
    if parts == [] then ""
    else if |parts| == 1 then parts[0]
    else parts[0] + [sep] + Join(parts[1..], sep)
  }

  /** `s.split(sep)` for a one-character separator: the pieces between the
      separators, so that there is always at least one piece. */
  function Split(s: string, sep: char): (r: seq<string>)
    ensures |r| >= 1
    ensures forall i :: 0 <= i < |r| ==> sep !in r[i]
    ensures Join(r, sep) == s
  {
    if sep !in s then [s]
    else
      var i := IndexOf(s, sep);
      var rest := Split(s[i + 1..], sep);
      assert s == s[..i] + [sep] + s[i + 1..];
      assert ([s[..i]] + rest)[1..] == rest;
      [s[..i]] + rest
  }

  /** Splitting undoes joining when no part contains the separator. */
  lemma {:induction false} SplitJoin(parts: seq<string>, sep: char)
    requires |parts| >= 1
    requires forall i :: 0 <= i < |parts| ==> sep !in parts[i]
    ensures Split(Join(parts, sep), sep) == parts
  {
    if |parts| > 1 {
      var tail := parts[1..];
      assert Join(parts, sep) == parts[0] + [sep] + Join(tail, sep);
      SplitCons(parts[0], Join(tail, sep), sep);
      SplitJoin(tail, sep);
      assert parts == [parts[0]] + tail;
    } else {
      assert Join(parts, sep) == parts[0];
    }
  }

  /** The first piece ends at the first separator. */
  lemma SplitCons(head: string, rest: string, sep: char)
    requires sep !in head
    ensures Split(head + [sep] + rest, sep) == [head] + Split(rest, sep)
  {
    var s := head + [sep] + rest;
    assert s[|head|] == sep;
    assert forall j :: 0 <= j < |head| ==> s[j] == head[j];
    IndexOfAt(s, sep, |head|);
    assert s[..|head|] == head;
    assert s[|head| + 1..] == rest;
  }

  /** Applies `Trim` to every piece. */
  function TrimAll(parts: seq<string>): (r: seq<string>)
    ensures |r| == |parts|
    ensures forall i :: 0 <= i < |r| ==> r[i] == Trim(parts[i])
  {
    if parts == [] then [] else [Trim(parts[0])] + TrimAll(parts[1..])
  }

  predicate NonEmpty(s: string)
  {
    s != []
  }

  /** `s.split(',').map((k) => k.trim()).filter((k) => k)`: the comma
      separated tokens of `s`, trimmed, with empty ones dropped. */
  function Tokens(s: string): seq<string>
  {
    Filter(TrimAll(Split(s, ',')), NonEmpty)
  }

  /** The empty string has no tokens. */
  lemma TokensEmpty()
    ensures Tokens("") == []
  {
    assert Split("", ',') == [""];
    assert TrimAll([""]) == [""];
  }

  /** A token is non-empty, has no white space at either end and no comma. */
  predicate IsToken(k: string)
  {
    k != [] && !IsSpace(k[0]) && !IsSpace(k[|k| - 1]) && ',' !in k
  }

  lemma TrimmedPiece(piece: string)
    requires ',' !in piece && Trim(piece) != []
    ensures IsToken(Trim(piece))
  {
    var k := Trim(piece);
    TrimSpec(piece);
    var j :| TrimmedAt(piece, k, j);
    forall m | 0 <= m < |k|
      ensures k[m] != ','
    {
      assert k[m] == piece[j + m];
    }
  }

  /** Every token is a trimmed, non-empty, comma-free piece of the input,
      and tokens come in the order of the pieces they come from. Conversely
      every piece that is not empty once trimmed becomes a token, as often
      as it occurs, and empty pieces are dropped. */
  lemma TokensSpec(s: string)
    ensures forall k :: k in Tokens(s) ==> IsToken(k)
    ensures IsSubseq(Tokens(s), TrimAll(Split(s, ',')))
    ensures forall i :: 0 <= i < |Split(s, ',')| && Trim(Split(s, ',')[i]) != "" ==> Trim(Split(s, ',')[i]) in Tokens(s)
    ensures forall k :: multiset(Tokens(s))[k] == if k == "" then 0 else multiset(TrimAll(Split(s, ',')))[k]
  {
    TokensSound(s);
    TokensComplete(s);
  }

  lemma {:induction false} TokensSound(s: string)
    ensures forall k :: k in Tokens(s) ==> IsToken(k)
    ensures IsSubseq(Tokens(s), TrimAll(Split(s, ',')))
  {
    var pieces := Split(s, ',');
    var trimmed := TrimAll(pieces);
    FilterSpec(trimmed, NonEmpty);
    forall k | k in Tokens(s)
      ensures IsToken(k)
    {
      assert k in trimmed && k != [];
      var i :| 0 <= i < |trimmed| && trimmed[i] == k;
      TrimmedPiece(pieces[i]);
    }
  }

  lemma {:induction false} TokensComplete(s: string)
    ensures forall i :: 0 <= i < |Split(s, ',')| && Trim(Split(s, ',')[i]) != "" ==> Trim(Split(s, ',')[i]) in Tokens(s)
    ensures forall k :: multiset(Tokens(s))[k] == if k == "" then 0 else multiset(TrimAll(Split(s, ',')))[k]
  {
    var pieces := Split(s, ',');
    var trimmed := TrimAll(pieces);
    assert Tokens(s) == Filter(trimmed, NonEmpty);
    KeepNonEmpty(trimmed);
    forall i | 0 <= i < |pieces| && Trim(pieces[i]) != ""
      ensures Trim(pieces[i]) in Tokens(s)
    {
      assert trimmed[i] == Trim(pieces[i]);
    }
  }

  /** Dropping empty strings keeps every other string, as often as it
      occurs. */
  lemma KeepNonEmpty(xs: seq<string>)
    ensures forall i :: 0 <= i < |xs| && xs[i] != "" ==> xs[i] in Filter(xs, NonEmpty)
    ensures forall k :: multiset(Filter(xs, NonEmpty))[k] == if k == "" then 0 else multiset(xs)[k]
  {
    FilterSpec(xs, NonEmpty);
    forall k
      ensures multiset(Filter(xs, NonEmpty))[k] == if k == "" then 0 else multiset(xs)[k]
    {
      assert NonEmpty(k) <==> k != "";
    }
    forall i | 0 <= i < |xs| && xs[i] != ""
      ensures xs[i] in Filter(xs, NonEmpty)
    {
      assert NonEmpty(xs[i]);
    }
  }

  lemma {:induction false} FilterAllNonEmpty(xs: seq<string>)
    requires forall i :: 0 <= i < |xs| ==> xs[i] != []
    ensures Filter(xs, NonEmpty) == xs
  {
    if xs != [] {
      FilterAllNonEmpty(xs[1..]);
    }
  }

  lemma {:induction false} TrimAllTrimmed(xs: seq<string>)
    requires forall i :: 0 <= i < |xs| ==> IsToken(xs[i])
    ensures TrimAll(xs) == xs
  {
    forall i | 0 <= i < |xs|
      ensures TrimAll(xs)[i] == xs[i]
    {
      TrimTrimmed(xs[i]);
    }
  }

  /** Tokenising a comma-joined list of tokens gives the list back. This is
      what lets a list of default keywords be joined with ',' and then parsed
      again like a supplied parameter. */
  lemma {:induction false} TokensJoin(ks: seq<string>)
    requires forall i :: 0 <= i < |ks| ==> IsToken(ks[i])
    ensures Tokens(Join(ks, ',')) == ks
  {
    if ks == [] {
      TokensEmpty();
    } else {
      SplitJoin(ks, ',');
      TrimAllTrimmed(ks);
      FilterAllNonEmpty(ks);
    }
  }

  /** ASCII `toLowerCase` of one character. */
  function LowerChar(c: char): char
  {
    if 'A' <= c <= 'Z' then (c as int + 32) as char else c
  }

  /** `s.toLowerCase()`, restricted to the ASCII letters. */
  function Lower(s: string): (r: string)
    ensures |r| == |s|
    ensures forall i :: 0 <= i < |s| ==> r[i] == LowerChar(s[i])
  {
    if s == [] then [] else [LowerChar(s[0])] + Lower(s[1..])
  }

  /** No upper-case ASCII letter is left after lowering, so lowering is
      idempotent. */
  lemma LowerIdempotent(s: string)
    ensures forall i :: 0 <= i < |Lower(s)| ==> !('A' <= Lower(s)[i] <= 'Z')
    ensures Lower(Lower(s)) == Lower(s)
  {
  }

  /** `p` is a prefix of `s`. */
  predicate IsPrefix(p: string, s: string)
  {
    |p| <= |s| && s[..|p|] == p
  }

  /** `s.includes(p)`: `p` occurs in `s` at some position. The empty string
      occurs in every string. */
  predicate Contains(s: string, p: string)
  {
    IsPrefix(p, s) || (s != [] && Contains(s[1..], p))
  }

  /** `p` occurs in `s` starting at position `i`. */
  predicate OccursAt(s: string, p: string, i: int)
  {
    0 <= i <= |s| - |p| && s[i..i + |p|] == p
  }

  /** `Contains` agrees with the positional definition of an occurrence. */
  lemma {:induction false} ContainsAt(s: string, p: string)
    ensures Contains(s, p) <==> exists i :: OccursAt(s, p, i)
  {
    if Contains(s, p) {
      if IsPrefix(p, s) {
        assert OccursAt(s, p, 0);
      } else {
        ContainsAt(s[1..], p);
        var i :| OccursAt(s[1..], p, i);
        TailSlice(s, i + 1, i + 1 + |p|);
        assert OccursAt(s, p, i + 1);
      }
    }
    if exists i :: OccursAt(s, p, i) {
      var i :| OccursAt(s, p, i);
      if i == 0 {
        assert IsPrefix(p, s);
      } else {
        TailSlice(s, i, i + |p|);
        assert OccursAt(s[1..], p, i - 1);
        ContainsAt(s[1..], p);
      }
    }
  }

  /** A slice of the tail is the slice of the whole, shifted by one. */
  lemma TailSlice(s: string, a: int, b: int)
    requires 1 <= a <= b <= |s|
    ensures s[1..][a - 1..b - 1] == s[a..b]
  {
  }
}
