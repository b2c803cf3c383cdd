/**
 * The JavaScript string operations the handler relies on: `trim`,
 * `split(' ')`, `toLowerCase`, `substring(0, n)`, `startsWith` and the
 * truthiness of an optional string.
 */
module JsText {

  import opened Wrappers

  /** The ECMAScript WhiteSpace and LineTerminator characters, which `trim` removes. */
  predicate IsSpace(c: char)
  {
    || c == ' ' || c == '\t' || c == '\n' || c == '\r'
    || c == '\U{000B}' || c == '\U{000C}' || c == '\U{00A0}' || c == '\U{1680}'
    || ('\U{2000}' <= c <= '\U{200A}')
    || c == '\U{2028}' || c == '\U{2029}' || c == '\U{202F}' || c == '\U{205F}'
    || c == '\U{3000}' || c == '\U{FEFF}'
  }

  /** Neither end of `s` is a whitespace character. */
  predicate IsTrimmed(s: string)
  {
    s != [] ==> !IsSpace(s[0]) && !IsSpace(s[|s| - 1])
  }

  predicate AllSpace(s: string)
  {
    forall i :: 0 <= i < |s| ==> IsSpace(s[i])
  }

  /** The end of the run of whitespace that starts at `i`. */
  function SpaceRunFrom(s: string, i: nat): (k: nat)
    requires i <= |s|
    ensures i <= k <= |s|
    ensures forall j :: i <= j < k ==> IsSpace(s[j])
    ensures k < |s| ==> !IsSpace(s[k])
    decreases |s| - i
  {
    if i < |s| && IsSpace(s[i]) then SpaceRunFrom(s, i + 1) else i
  }

  /** The start of the run of whitespace that ends at `n`. */
  function SpaceRunTo(s: string, n: nat): (k: nat)
    requires n <= |s|
    ensures k <= n
    ensures forall j :: k <= j < n ==> IsSpace(s[j])
    ensures k > 0 ==> !IsSpace(s[k - 1])
  {
    if n > 0 && IsSpace(s[n - 1]) then SpaceRunTo(s, n - 1) else n
  }

  /** Drops leading whitespace: the result is the suffix of `s` after a run of whitespace. */
  function TrimStart(s: string): (r: string)
    ensures |r| <= |s| && r == s[|s| - |r|..]
    ensures AllSpace(s[..|s| - |r|])
    ensures r != [] ==> !IsSpace(r[0])
  {
    var k := SpaceRunFrom(s, 0);
    assert forall j :: 0 <= j < k ==> s[..k][j] == s[j];
    s[k..]
  }

  /** Drops trailing whitespace: the result is the prefix of `s` before a run of whitespace. */
  function TrimEnd(s: string): (r: string)
    ensures |r| <= |s| && r == s[..|r|]
    ensures AllSpace(s[|r|..])
    ensures r != [] ==> !IsSpace(r[|r| - 1])
  {
    var k := SpaceRunTo(s, |s|);
    assert forall j :: k <= j < |s| ==> s[k..][j - k] == s[j];
    s[..k]
  }

  /** `String.prototype.trim`. */
  function Trim(s: string): (r: string)
    ensures IsTrimmed(r)
    ensures |r| <= |s|
    ensures r == [] <==> AllSpace(s)
  {
    var a := TrimStart(s);
    var r := TrimEnd(a);
    TrimEnds(s, a, r);
    r
  }

  /** Trimming both ends leaves no whitespace at either end, and nothing only when all was whitespace. */
  lemma TrimEnds(s: string, a: string, r: string)
    requires |a| <= |s| && a == s[|s| - |a|..] && AllSpace(s[..|s| - |a|]) && (a != [] ==> !IsSpace(a[0]))
    requires |r| <= |a| && r == a[..|r|] && AllSpace(a[|r|..]) && (r != [] ==> !IsSpace(r[|r| - 1]))
    ensures IsTrimmed(r)
    ensures r == [] <==> AllSpace(s)
  {
    var k := |s| - |a|;
    if r != [] {
      assert r[0] == a[0] && a[0] == s[k];
    } else {
      assert a == [];
      assert s[..k] == s;
    }
  }

  /**
   * Where the kept middle of `s` starts: `trim` keeps the piece of `s` at
   * this offset, with only whitespace on either side of it.
   */
  function TrimOffset(s: string): (k: nat)
    ensures k + |Trim(s)| <= |s|
    ensures OccursAt(s, Trim(s), k)
    ensures AllSpace(s[..k]) && AllSpace(s[k + |Trim(s)|..])
  {
    var a := TrimStart(s);
    var r := TrimEnd(a);
    assert Trim(s) == r;
    var k := |s| - |a|;
    TrimMiddle(s, a, r, k);
    k
  }

  /** A run of whitespace, a middle, and a run of whitespace: where the middle sits in the whole. */
  lemma TrimMiddle(s: string, a: string, r: string, k: nat)
    requires k <= |s| && a == s[k..] && AllSpace(s[..k])
    requires |r| <= |a| && r == a[..|r|] && AllSpace(a[|r|..])
    ensures k + |r| <= |s| && s[k..k + |r|] == r
    ensures AllSpace(s[..k]) && AllSpace(s[k + |r|..])
  {
    assert s[k + |r|..] == a[|r|..];
  }

  lemma TrimOfTrimmed(s: string)
    requires IsTrimmed(s)
    ensures Trim(s) == s
  {
  }

  lemma TrimIdempotent(s: string)
    ensures Trim(Trim(s)) == Trim(s)
  {
    TrimOfTrimmed(Trim(s));
  }

  /** `s.split(' ')`: the pieces between single spaces, empty pieces included. */
  function Split(s: string): (r: seq<string>)
    ensures |r| >= 1
    ensures forall i :: 0 <= i < |r| ==> ' ' !in r[i]
  {
    if |s| == 0 then [""]
    else
      var rest := Split(s[1..]);
      if s[0] == ' ' then [""] + rest
      else [[s[0]] + rest[0]] + rest[1..]
  }

  /** `parts.join(' ')`. */
  function Join(parts: seq<string>): string
  {
    if |parts| == 0 then ""
    else if |parts| == 1 then parts[0]
    else parts[0] + " " + Join(parts[1..])
  }

  /** Splitting loses no text: joining the pieces with single spaces gives `s` back. */
  lemma {:induction false} JoinSplit(s: string)
    ensures Join(Split(s)) == s
  {
    if |s| > 0 {
      var rest := Split(s[1..]);
      JoinSplit(s[1..]);
      if s[0] == ' ' {
        assert Split(s) == [""] + rest;
        assert Join(Split(s)) == "" + " " + Join(rest);
        assert s == [' '] + s[1..];
      } else {
        var r := Split(s);
        assert r == [[s[0]] + rest[0]] + rest[1..];
        if |rest| == 1 {
          assert Join(r) == [s[0]] + rest[0];
        } else {
          assert r[1..] == rest[1..];
          assert Join(rest) == rest[0] + " " + Join(rest[1..]);
          assert Join(r) == [s[0]] + rest[0] + " " + Join(rest[1..]);
        }
        assert s == [s[0]] + s[1..];
      }
    }
  }

  lemma {:induction false} SplitWord(a: string, rest: string)
    requires ' ' !in a
    ensures Split(a + rest) == [a + Split(rest)[0]] + Split(rest)[1..]
  {
    var r := Split(rest);
    if a != [] {
      assert (a + rest)[0] == a[0];
      assert (a + rest)[1..] == a[1..] + rest;
      SplitWord(a[1..], rest);
      var tail := Split(a[1..] + rest);
      assert tail[0] == a[1..] + r[0] && tail[1..] == r[1..];
      assert [a[0]] + (a[1..] + r[0]) == a + r[0];
    } else {
      assert a + rest == rest;
      assert a + r[0] == r[0];
      assert r == [r[0]] + r[1..];
    }
  }

  /** A text without spaces is a single token. */
  lemma SplitOneWord(a: string)
    requires ' ' !in a
    ensures Split(a) == [a]
  {
    SplitWord(a, "");
    assert a + "" == a;
  }

  /** Splitting a join of space-free pieces gives the pieces back. */
  lemma {:induction false} SplitJoin(parts: seq<string>)
    requires |parts| >= 1
    requires forall i :: 0 <= i < |parts| ==> ' ' !in parts[i]
    ensures Split(Join(parts)) == parts
  {
    if |parts| == 1 {
      SplitWord(parts[0], "");
      assert parts[0] + "" == parts[0];
    } else {
      var tail := Join(parts[1..]);
      SplitJoin(parts[1..]);
      assert Join(parts) == parts[0] + (" " + tail);
      SplitWord(parts[0], " " + tail);
      assert (" " + tail)[1..] == tail;
      assert Split(" " + tail) == [""] + Split(tail);
      assert parts[0] + "" == parts[0];
      assert Split(Join(parts)) == [parts[0]] + parts[1..];
    }
  }

  /** `toLowerCase` on one character, for the ASCII letters. */
  function LowerChar(c: char): char
  {
    if 'A' <= c <= 'Z' then (c as int + 32) as char else c
  }

  /** `toLowerCase`, character by character. */
  function ToLower(s: string): string
  {
    seq(|s|, i requires 0 <= i < |s| => LowerChar(s[i]))
  }

  predicate IsLetter(c: char)
  {
    'A' <= c <= 'Z' || 'a' <= c <= 'z'
  }

  /** A word of ASCII letters, checked letter by letter. */
  predicate Letters(s: string)
  {
    s == [] || (IsLetter(s[0]) && Letters(s[1..]))
  }

  lemma {:induction false} LettersAt(s: string)
    ensures Letters(s) <==> forall i :: 0 <= i < |s| ==> IsLetter(s[i])
  {
    if s != [] {
      LettersAt(s[1..]);
      assert forall i :: 1 <= i < |s| ==> s[i] == s[1..][i - 1];
    }
  }

  /** A word is trimmed and has no space in it when it is made of letters. */
  lemma LettersNoSpace(s: string)
    requires Letters(s)
    ensures IsTrimmed(s) && ' ' !in s
  {
    LettersAt(s);
  }

  /** Whatever lower-cases to letters is letters. */
  lemma LowerToLetters(w: string, lw: string)
    requires ToLower(w) == lw && Letters(lw)
    ensures Letters(w)
  {
    LettersAt(lw);
    forall i | 0 <= i < |w| ensures IsLetter(w[i]) {
      assert LowerChar(w[i]) == lw[i];
    }
    LettersAt(w);
  }

  /** Text without ASCII capitals is left as it is. */
  lemma ToLowerNoCapitals(s: string)
    requires forall i :: 0 <= i < |s| ==> !('A' <= s[i] <= 'Z')
    ensures ToLower(s) == s
  {
    assert forall i :: 0 <= i < |s| ==> ToLower(s)[i] == s[i];
  }

  /** A word of lower-case ASCII letters, checked letter by letter. */
  predicate LowerLetters(s: string)
  {
    s == [] || ('a' <= s[0] <= 'z' && LowerLetters(s[1..]))
  }

  lemma {:induction false} LowerLettersAt(s: string)
    requires LowerLetters(s)
    ensures forall i :: 0 <= i < |s| ==> 'a' <= s[i] <= 'z'
  {
    if s != [] {
      LowerLettersAt(s[1..]);
      assert forall i :: 1 <= i < |s| ==> s[i] == s[1..][i - 1];
    }
  }

  /** A lower-case word is its own lower case and a word without spaces. */
  lemma LowerLettersFixed(s: string)
    requires LowerLetters(s)
    ensures ToLower(s) == s && Letters(s)
  {
    LowerLettersAt(s);
    ToLowerNoCapitals(s);
    LettersAt(s);
  }

  /** `s.substring(0, n)` for a non-negative `n`: an index past the end is clamped. */
  function Prefix(s: string, n: nat): (r: string)
    ensures |r| == if n <= |s| then n else |s|
    ensures r <= s
  {
    if n <= |s| then s[..n] else s
  }

  /** `x` occurs in `s` starting at index `i`. */
  predicate OccursAt(s: string, x: string, i: int)
  {
    0 <= i && i + |x| <= |s| && s[i..i + |x|] == x
  }

  predicate StartsWith(s: string, p: string)
  {
    |p| <= |s| && s[..|p|] == p
  }

  /** JavaScript truthiness of a string that may be `undefined`: the empty string is falsy. */
  predicate Truthy(o: Option<string>)
  {
    o.Some? && o.value != ""
  }
}
