/** Character-level helpers shared by the response parser, the chat view and the
    voice components. A `char` stands for one UTF-16 code unit of a JavaScript string. */
module Text {

  datatype Option<T> = None | Some(value: T)

  /** The characters matched by JavaScript's `\s` and removed by `String.prototype.trim`:
      the ECMAScript WhiteSpace and LineTerminator sets. */
  predicate IsSpace(c: char) {
    c == '\t' || c == '\n' || c == '\U{000B}' || c == '\U{000C}' || c == '\r' || c == ' '
    || c == '\U{00A0}' || c == '\U{1680}' || ('\U{2000}' <= c <= '\U{200A}')
    || c == '\U{2028}' || c == '\U{2029}' || c == '\U{202F}' || c == '\U{205F}'
    || c == '\U{3000}' || c == '\U{FEFF}'
  }

  /** The characters JavaScript's `.` refuses to match. */
  predicate IsLineTerminator(c: char) {
    c == '\n' || c == '\r' || c == '\U{2028}' || c == '\U{2029}'
  }

  /** JavaScript's `\w` without the `u` flag: `[A-Za-z0-9_]`. */
  predicate IsWordChar(c: char) {
    ('a' <= c <= 'z') || ('A' <= c <= 'Z') || ('0' <= c <= '9') || c == '_'
  }

  /** Every character of `s` in `[lo, hi)` is white space. */
  ghost predicate SpaceIn(s: string, lo: int, hi: int)
    requires 0 <= lo && hi <= |s|
  {
    forall k :: lo <= k < hi ==> IsSpace(s[k])
  }

  /** Removes leading white space. */
  function TrimStart(s: string): string {
    if s != [] && IsSpace(s[0]) then TrimStart(s[1..]) else s
  }

  /** What `TrimStart` leaves is a suffix that does not start with white space, and what it
      drops is all white space. */
  lemma {:induction false} TrimStartSound(s: string)
    ensures var r := TrimStart(s);
      && |r| <= |s| && r == s[|s| - |r|..]
      && (r == [] || !IsSpace(r[0]))
      && SpaceIn(s, 0, |s| - |r|)
  {
    if s != [] && IsSpace(s[0]) {
      TrimStartSound(s[1..]);
      var r := TrimStart(s[1..]);
      assert s[1..][|s| - 1 - |r|..] == s[|s| - |r|..];
      assert forall k :: 1 <= k < |s| - |r| ==> s[k] == s[1..][k - 1];
    }
  }

  /** Removes trailing white space. */
  function TrimEnd(s: string): string {
    if s != [] && IsSpace(s[|s| - 1]) then TrimEnd(s[..|s| - 1]) else s
  }

  /** What `TrimEnd` leaves is a prefix that does not end with white space, and what it drops
      is all white space. */
  lemma {:induction false} TrimEndSound(s: string)
    ensures var r := TrimEnd(s);
      && |r| <= |s| && r == s[..|r|]
      && (r == [] || !IsSpace(r[|r| - 1]))
      && SpaceIn(s, |r|, |s|)
  {
    if s != [] && IsSpace(s[|s| - 1]) {
      TrimEndSound(s[..|s| - 1]);
      var r := TrimEnd(s[..|s| - 1]);
      assert forall k :: |r| <= k < |s| - 1 ==> s[..|s| - 1][k] == s[k];
    }
  }

  /** `String.prototype.trim`: what is left of `s` after dropping the white space at both
      ends. What is left neither starts nor ends with white space, and it is empty exactly
      when `s` is all white space; `TrimIsSlice` says that nothing else is dropped. */
  function Trim(s: string): (r: string)
    ensures r == [] || (!IsSpace(r[0]) && !IsSpace(r[|r| - 1]))
    ensures r == [] <==> SpaceIn(s, 0, |s|)
  {
    TrimStartSound(s);
    TrimEndSound(TrimStart(s));
    TrimEnd(TrimStart(s))
  }

  /** Trimming twice is trimming once. */
  lemma {:induction false} TrimIdempotent(s: string)
    ensures Trim(Trim(s)) == Trim(s)
  {
    var r := Trim(s);
    if r != [] {
      assert TrimStart(r) == r;
      assert TrimEnd(r) == r;
    }
  }

  /** The trimmed text is a slice of the original with only white space around it. */
  lemma {:induction false} TrimIsSlice(s: string) returns (i: nat, j: nat)
    ensures i <= j <= |s| && Trim(s) == s[i..j]
    ensures SpaceIn(s, 0, i) && SpaceIn(s, j, |s|)
  {
    var a := TrimStart(s);
    var r := TrimEnd(a);
    TrimStartSound(s);
    TrimEndSound(a);
    i, j := |s| - |a|, |s| - |a| + |r|;
    SpaceShift(s, i, |r|, |a|);
    assert s[i..j] == r;
  }

  lemma {:induction false} SpaceShift(s: string, i: nat, lo: nat, hi: nat)
    requires i <= |s| && lo <= hi <= |s| - i
    requires SpaceIn(s[i..], lo, hi)
    ensures SpaceIn(s, i + lo, i + hi)
  {
    forall k | i + lo <= k < i + hi ensures IsSpace(s[k]) {
      assert s[k] == s[i..][k - i];
    }
  }

  /** Lower-cases ASCII letters only. For a pattern made of ASCII characters this is exactly
      the equivalence JavaScript's `i` flag (without `u`) applies: a non-ASCII character never
      matches an ASCII one case-insensitively. */
  function Lower(c: char): char {
    if 'A' <= c <= 'Z' then (c as int + 32) as char else c
  }

  /** `pat` occurs in `s` at position `i`. */
  predicate At(s: string, i: nat, pat: string) {
    i + |pat| <= |s| && forall k :: 0 <= k < |pat| ==> s[i + k] == pat[k]
  }

  /** `pat` occurs in `s` at position `i`, ignoring ASCII case. */
  predicate CiAt(s: string, i: nat, pat: string) {
    i + |pat| <= |s| && forall k :: 0 <= k < |pat| ==> Lower(s[i + k]) == Lower(pat[k])
  }

  /** A string occurs at the end of anything it is appended to. */
  lemma {:induction false} AtEnd(x: string, m: string)
    ensures At(x + m, |x|, m)
  {
    forall k | 0 <= k < |m| ensures (x + m)[|x| + k] == m[k] {}
  }

  /** An occurrence stays where it is when more text is appended. */
  lemma {:induction false} AtExtend(x: string, i: nat, m: string, y: string)
    requires At(x, i, m)
    ensures At(x + y, i, m)
  {
    forall k | 0 <= k < |m| ensures (x + y)[i + k] == m[k] {
      assert x[i + k] == m[k];
    }
  }

  /** An occurrence inside a slice is an occurrence in the whole text. */
  lemma {:induction false} AtOfSlice(s: string, i: nat, j: nat, k: nat, m: string)
    requires i <= j <= |s|
    ensures At(s[i..j], k, m) ==> At(s, i + k, m)
  {
    if At(s[i..j], k, m) {
      forall t | 0 <= t < |m| ensures s[i + k + t] == m[t] {
        assert s[i..j][k + t] == m[t];
      }
    }
  }

  ghost predicate Contains(s: string, pat: string) {
    exists i: nat :: At(s, i, pat)
  }

  /** `content.split('\n')`: the pieces between newline characters, always at least one. */
  function Lines(c: string): (r: seq<string>)
    ensures |r| >= 1
    ensures forall i :: 0 <= i < |r| ==> '\n' !in r[i]
    decreases |c|
  {
    if c == [] then [""]
    else if c[0] == '\n' then [""] + Lines(c[1..])
    else
      var rest := Lines(c[1..]);
      [[c[0]] + rest[0]] + rest[1..]
  }

  /** Each line followed by a newline, concatenated: what `currentCode += line + '\n'`
      accumulates over a list of lines. */
  function JoinLines(ls: seq<string>): (r: string)
  {
    if ls == [] then "" else ls[0] + "\n" + JoinLines(ls[1..])
  }

  function CountNewlines(c: string): nat {
    if c == [] then 0 else (if c[0] == '\n' then 1 else 0) + CountNewlines(c[1..])
  }

  lemma {:induction false} JoinLinesAppend(a: seq<string>, b: seq<string>)
    ensures JoinLines(a + b) == JoinLines(a) + JoinLines(b)
  {
    if a != [] {
      assert (a + b)[1..] == a[1..] + b;
      JoinLinesAppend(a[1..], b);
    } else {
      assert a + b == b;
    }
  }

  /** Splitting on newlines and putting a newline back after every piece gives the text
      back with one extra trailing newline. */
  lemma {:induction false} JoinLinesOfLines(c: string)
    ensures JoinLines(Lines(c)) == c + "\n"
    decreases |c|
  {
    if c == [] {
    } else if c[0] == '\n' {
      JoinLinesOfLines(c[1..]);
      assert ([""] + Lines(c[1..]))[1..] == Lines(c[1..]);
      assert c == "\n" + c[1..];
    } else {
      var rest := Lines(c[1..]);
      JoinLinesOfLines(c[1..]);
      var ls := [[c[0]] + rest[0]] + rest[1..];
      assert ls[1..] == rest[1..];
      calc {
        JoinLines(ls);
        ls[0] + "\n" + JoinLines(ls[1..]);
        [c[0]] + (rest[0] + "\n" + JoinLines(rest[1..]));
        [c[0]] + JoinLines(rest);
        [c[0]] + (c[1..] + "\n");
        { assert c == [c[0]] + c[1..]; }
        c + "\n";
      }
    }
  }

  /** There is one line more than there are newline characters. */
  lemma {:induction false} LinesCount(c: string)
    ensures |Lines(c)| == CountNewlines(c) + 1
    decreases |c|
  {
    if c != [] { LinesCount(c[1..]); }
  }

  /** Showing the first `k` lines, each with its newline, gives a prefix of the text plus a
      final newline; with every line shown it is exactly that. */
  lemma {:induction false} TypedPrefix(c: string, k: nat)
    requires k <= |Lines(c)|
    ensures JoinLines(Lines(c)[..k]) <= c + "\n"
    ensures k == |Lines(c)| ==> JoinLines(Lines(c)[..k]) == c + "\n"
  {
    var ls := Lines(c);
    assert ls == ls[..k] + ls[k..];
    JoinLinesAppend(ls[..k], ls[k..]);
    JoinLinesOfLines(c);
  }

  /** One more line shown means the previous text plus that line and a newline. */
  lemma {:induction false} TypeOneMore(ls: seq<string>, k: nat)
    requires k < |ls|
    ensures JoinLines(ls[..k + 1]) == JoinLines(ls[..k]) + ls[k] + "\n"
    ensures |JoinLines(ls[..k])| < |JoinLines(ls[..k + 1])|
  {
    assert ls[..k + 1] == ls[..k] + [ls[k]];
    JoinLinesAppend(ls[..k], [ls[k]]);
    assert JoinLines([ls[k]]) == ls[k] + "\n" + JoinLines([]);
  }
}
