/** The pure part of `parseAndSetCode` and `getCombinedCode` in the page component: pulling
    the three fenced code fields out of a free-form reply, deriving a project title from the
    user's prompt, and assembling the preview document. Each regular expression of the source
    is written out as an explicit leftmost search. */
module ResponseParser {
  import opened Text
  import opened CodeModel

  /** The marker and the optional language tags of one field, in the order the alternation
      of the regular expression tries them. */
  datatype FieldPattern = FieldPattern(marker: string, tags: seq<string>)

  /** `/HTML:\s*```(?:html)?\s*([\s\S]*?)```/i` */
  const HtmlPattern := FieldPattern("HTML:", ["html"])
  /** `/CSS:\s*```(?:css)?\s*([\s\S]*?)```/i` */
  const CssPattern := FieldPattern("CSS:", ["css"])
  /** `/JS:\s*```(?:javascript|js)?\s*([\s\S]*?)```/i` */
  const JsPattern := FieldPattern("JS:", ["javascript", "js"])

  const Fence := "```"

  /** Three backticks start at position `k`. */
  predicate FenceAt(s: string, k: nat) {
    k + 3 <= |s| && s[k] == '`' && s[k + 1] == '`' && s[k + 2] == '`'
  }

  ghost predicate HasFence(s: string) {
    exists k: nat :: FenceAt(s, k)
  }

  /** The first fence that starts at or after `from`. */
  function FindFence(s: string, from: nat): Option<nat>
    decreases |s| - from
  {
    if from + 3 > |s| then None
    else if FenceAt(s, from) then Some(from)
    else FindFence(s, from + 1)
  }

  /** The search finds a fence, the first one at or after `from`, or there is none. */
  lemma {:induction false} FindFenceSound(s: string, from: nat)
    ensures FindFence(s, from).Some? ==> var e := FindFence(s, from).value;
      from <= e && FenceAt(s, e) && forall k :: from <= k < e ==> !FenceAt(s, k)
    ensures FindFence(s, from).None? ==> forall k :: from <= k ==> !FenceAt(s, k)
    decreases |s| - from
  {
    if from + 3 <= |s| && !FenceAt(s, from) {
      FindFenceSound(s, from + 1);
    }
  }

  /** A fence with none before it from `from` on is the one the search finds. */
  lemma {:induction false} FindFenceFirst(s: string, from: nat, e: nat)
    requires from <= e && FenceAt(s, e)
    requires forall k :: from <= k < e ==> !FenceAt(s, k)
    ensures FindFence(s, from) == Some(e)
    decreases e - from
  {
    if from < e {
      FindFenceFirst(s, from + 1, e);
    }
  }

  /** A stretch of text with no fence starting inside it has no fence in any part of it. */
  lemma {:induction false} NoFenceInSlice(s: string, i: nat, j: nat)
    requires i <= j <= |s|
    requires forall k :: i <= k < j ==> !FenceAt(s, k)
    ensures !HasFence(s[i..j])
  {
    forall k: nat | FenceAt(s[i..j], k) ensures false {
      assert FenceAt(s, i + k);
    }
  }

  /** The title used when the prompt yields none. */
  const DefaultTitle := "My Website"

  /** The end of the run of white space starting at `i` (a greedy `\s*`). */
  function SkipSpaces(s: string, i: nat): (r: nat)
    requires i <= |s|
    ensures i <= r <= |s|
    decreases |s| - i
  {
    if i < |s| && IsSpace(s[i]) then SkipSpaces(s, i + 1) else i
  }

  /** Everything skipped is white space, and the run stops at the end of the text or at a
      character that is not. */
  lemma {:induction false} SkipSpacesSound(s: string, i: nat)
    requires i <= |s|
    ensures SpaceIn(s, i, SkipSpaces(s, i))
    ensures SkipSpaces(s, i) == |s| || !IsSpace(s[SkipSpaces(s, i)])
    decreases |s| - i
  {
    if i < |s| && IsSpace(s[i]) {
      SkipSpacesSound(s, i + 1);
    }
  }

  /** The end of the run of word characters starting at `i` (a greedy `\w*`). */
  function WordEnd(s: string, i: nat): (r: nat)
    requires i <= |s|
    ensures i <= r <= |s|
    ensures forall k :: i <= k < r ==> IsWordChar(s[k])
    ensures r == |s| || !IsWordChar(s[r])
    decreases |s| - i
  {
    if i < |s| && IsWordChar(s[i]) then WordEnd(s, i + 1) else i
  }

  /** The length of the first tag that occurs at `i` ignoring case, or 0: a greedy optional
      group over an alternation. */
  function TagLength(s: string, i: nat, tags: seq<string>): (r: nat)
    ensures r == 0 || i + r <= |s|
  {
    if tags == [] then 0
    else if CiAt(s, i, tags[0]) && tags[0] != [] then |tags[0]|
    else if CiAt(s, i, tags[0]) then 0
    else TagLength(s, i, tags[1..])
  }

  /** `tags[j]` is the first tag, in alternation order, found at `i` ignoring case. */
  ghost predicate FirstTag(s: string, i: nat, tags: seq<string>, j: nat)
    requires j < |tags|
  {
    CiAt(s, i, tags[j]) && forall k :: 0 <= k < j ==> !CiAt(s, i, tags[k])
  }

  /** The optional group consumes the first of its tags, in alternation order, that is found
      at `i` ignoring case; when no tag is there it consumes nothing. */
  lemma {:induction false} TagLengthSound(s: string, i: nat, tags: seq<string>)
    ensures forall j :: 0 <= j < |tags| && FirstTag(s, i, tags, j) ==> TagLength(s, i, tags) == |tags[j]|
    ensures (forall j :: 0 <= j < |tags| ==> !CiAt(s, i, tags[j])) ==> TagLength(s, i, tags) == 0
  {
    if tags != [] && !CiAt(s, i, tags[0]) {
      TagLengthSound(s, i, tags[1..]);
      assert forall j :: 0 <= j < |tags[1..]| ==> tags[1..][j] == tags[j + 1];
      forall j | 1 <= j < |tags| && FirstTag(s, i, tags, j) ensures TagLength(s, i, tags) == |tags[j]| {
        assert FirstTag(s, i, tags[1..], j - 1);
      }
    }
  }

  /** The position after the opening fence at `b` and the language tag that follows it. */
  function OpeningEnd(s: string, b: nat, tags: seq<string>): (r: nat)
    requires FenceAt(s, b)
    ensures r <= |s|
  {
    b + 3 + TagLength(s, b + 3, tags)
  }

  /** The bounds of the capture group when the expression is tried at position `p`. */
  function CaptureAt(s: string, p: nat, f: FieldPattern): Option<(nat, nat)> {
    if !CiAt(s, p, f.marker) then None
    else
      var b := SkipSpaces(s, p + |f.marker|);
      if !FenceAt(s, b) then None
      else
        var c := SkipSpaces(s, OpeningEnd(s, b, f.tags));
        match FindFence(s, c)
        case None => None
        case Some(e) => Some((c, e))
  }

  /** Tried at `p`, the expression gets past the marker, the white space and the opening
      fence. */
  ghost predicate OpensAt(s: string, p: nat, f: FieldPattern) {
    CiAt(s, p, f.marker) && FenceAt(s, SkipSpaces(s, p + |f.marker|))
  }

  /** A match at `p` starts with the marker, and its capture is followed by a fence and holds
      none. */
  lemma {:induction false} CaptureAtSound(s: string, p: nat, f: FieldPattern)
    ensures CaptureAt(s, p, f).Some? ==> CiAt(s, p, f.marker)
    ensures CaptureAt(s, p, f).Some? ==> var (c, e) := CaptureAt(s, p, f).value;
      c <= e && FenceAt(s, e) && forall k :: c <= k < e ==> !FenceAt(s, k)
  {
    if CaptureAt(s, p, f).Some? {
      var b := SkipSpaces(s, p + |f.marker|);
      FindFenceSound(s, SkipSpaces(s, OpeningEnd(s, b, f.tags)));
    }
  }

  /** The expression matches at `p` exactly when the marker, white space and a fence are
      there and another fence follows the opening and its tag. */
  lemma {:induction false} CaptureAtComplete(s: string, p: nat, f: FieldPattern)
    ensures CaptureAt(s, p, f).Some? <==>
      (OpensAt(s, p, f) && exists e :: OpeningEnd(s, SkipSpaces(s, p + |f.marker|), f.tags) <= e && FenceAt(s, e))
  {
    if OpensAt(s, p, f) {
      var b := SkipSpaces(s, p + |f.marker|);
      var o := OpeningEnd(s, b, f.tags);
      var c := SkipSpaces(s, o);
      SkipSpacesSound(s, o);
      FindFenceSound(s, c);
      forall e | o <= e && FenceAt(s, e) ensures CaptureAt(s, p, f).Some? {
      }
    }
  }

  /** The leftmost match at or after `p`. */
  function MatchFrom(s: string, p: nat, f: FieldPattern): Option<(nat, nat)>
    decreases |s| - p
  {
    if p > |s| then None
    else match CaptureAt(s, p, f)
      case Some(m) => Some(m)
      case None => MatchFrom(s, p + 1, f)
  }

  /** The expression matches at no position in `[lo, hi)`. */
  ghost predicate NoMatchBetween(s: string, lo: nat, hi: nat, f: FieldPattern) {
    forall q :: lo <= q < hi ==> CaptureAt(s, q, f).None?
  }

  /** The leftmost match is a match: it is the match at some position at or after `p`, no
      position in between matches, its capture is followed by a fence and holds none; and
      when there is no match no position from `p` on matches. */
  lemma {:induction false} MatchFromSound(s: string, p: nat, f: FieldPattern)
    ensures MatchFrom(s, p, f).Some? ==>
      exists q :: p <= q <= |s| && NoMatchBetween(s, p, q, f) && CaptureAt(s, q, f) == MatchFrom(s, p, f)
    ensures MatchFrom(s, p, f).Some? ==> exists q :: p <= q && CiAt(s, q, f.marker)
    ensures MatchFrom(s, p, f).Some? ==> var (c, e) := MatchFrom(s, p, f).value;
      c <= e && FenceAt(s, e) && forall k :: c <= k < e ==> !FenceAt(s, k)
    ensures MatchFrom(s, p, f).None? ==> forall q :: p <= q ==> CaptureAt(s, q, f).None?
    decreases |s| - p
  {
    if p <= |s| {
      CaptureAtSound(s, p, f);
      if CaptureAt(s, p, f).None? {
        MatchFromSound(s, p + 1, f);
        if MatchFrom(s, p, f).Some? {
          var q :| p + 1 <= q <= |s| && NoMatchBetween(s, p + 1, q, f) && CaptureAt(s, q, f) == MatchFrom(s, p + 1, f);
          assert NoMatchBetween(s, p, q, f);
        }
      }
    }
  }

  /** `match ? match[1].trim() : ''` for one field. */
  function ExtractField(response: string, f: FieldPattern): string {
    MatchFromSound(response, 0, f);
    match MatchFrom(response, 0, f)
    case None => ""
    case Some((c, e)) => Trim(response[c..e])
  }

  /** An extracted field is the trimmed capture of the leftmost match and never holds a
      fence; a reply where the expression matches nowhere, in particular one without the
      marker, gives `""`. */
  lemma {:induction false} ExtractFieldSound(response: string, f: FieldPattern)
    ensures !HasFence(ExtractField(response, f))
    ensures forall q: nat :: q <= |response| && NoMatchBetween(response, 0, q, f) && CaptureAt(response, q, f).Some? ==>
      var (c, e) := CaptureAt(response, q, f).value;
      c <= e <= |response| && ExtractField(response, f) == Trim(response[c..e])
    ensures (forall q :: CaptureAt(response, q, f).None?) ==> ExtractField(response, f) == ""
    ensures (forall q :: !CiAt(response, q, f.marker)) ==> ExtractField(response, f) == ""
  {
    MatchFromSound(response, 0, f);
    forall q: nat | q <= |response| && NoMatchBetween(response, 0, q, f) && CaptureAt(response, q, f).Some?
      ensures var (c, e) := CaptureAt(response, q, f).value;
        c <= e <= |response| && ExtractField(response, f) == Trim(response[c..e])
    {
      CaptureAtSound(response, q, f);
      MatchFromSkips(response, 0, q, f);
    }
    match MatchFrom(response, 0, f)
    case None =>
    case Some((c, e)) =>
      var x := response[c..e];
      forall k | 0 <= k < |x| ensures FenceAt(x, k) == FenceAt(response, c + k) {
      }
      FenceFreeTrim(x);
  }

  lemma {:induction false} FenceFreeTrim(x: string)
    requires forall k :: 0 <= k < |x| ==> !FenceAt(x, k)
    ensures !HasFence(Trim(x))
  {
    var i, j := TrimIsSlice(x);
    NoFenceInSlice(x, i, j);
  }

  /** The code fields found in a reply: each field is searched for on its own. */
  function ParseCode(response: string): Code {
    Code(ExtractField(response, HtmlPattern), ExtractField(response, CssPattern),
         ExtractField(response, JsPattern))
  }

  /** No field of the parsed code holds a fence, and a field whose expression matches
      nowhere (its marker is missing, or no fenced block follows any occurrence of it) is
      empty whatever the other fields hold. */
  lemma ParseCodeSound(response: string)
    ensures forall s :: !HasFence(Field(ParseCode(response), s))
    ensures (forall q :: CaptureAt(response, q, HtmlPattern).None?) ==> ParseCode(response).html == ""
    ensures (forall q :: CaptureAt(response, q, CssPattern).None?) ==> ParseCode(response).css == ""
    ensures (forall q :: CaptureAt(response, q, JsPattern).None?) ==> ParseCode(response).js == ""
    ensures (forall q :: !CiAt(response, q, "HTML:")) ==> ParseCode(response).html == ""
    ensures (forall q :: !CiAt(response, q, "CSS:")) ==> ParseCode(response).css == ""
    ensures (forall q :: !CiAt(response, q, "JS:")) ==> ParseCode(response).js == ""
  {
    ExtractFieldSound(response, HtmlPattern);
    ExtractFieldSound(response, CssPattern);
    ExtractFieldSound(response, JsPattern);
  }

  // ---------------------------------------------------------------------------------------
  // The project title: `originalPrompt.match(/build.*?(\w+\s+\w+)/i)?.[1] || 'My Website'`

  /** `t` is a run of word characters, a run of white space and a run of word characters. */
  ghost predicate TwoWords(t: string) {
    exists i, j :: 0 < i < j < |t|
      && (forall k :: 0 <= k < i ==> IsWordChar(t[k]))
      && SpaceIn(t, i, j)
      && (forall k :: j <= k < |t| ==> IsWordChar(t[k]))
  }

  /** A word, white space and a word start at `q`: the group `(\w+\s+\w+)` can match there. */
  ghost predicate PairAt(s: string, q: nat) {
    exists e :: q <= e <= |s| && TwoWords(s[q..e])
  }

  /** `(\w+\s+\w+)` tried at `q`: each greedy run must be maximal, since giving back a
      character never lets the next run start. */
  function WordPairAt(s: string, q: nat): (r: Option<string>)
    requires q <= |s|
    ensures r.Some? ==> TwoWords(r.value) && At(s, q, r.value)
    ensures r.Some? ==> q + |r.value| == |s| || !IsWordChar(s[q + |r.value|])
  {
    var e1 := WordEnd(s, q);
    if e1 == q then None
    else
      var e2 := SkipSpaces(s, e1);
      SkipSpacesSound(s, e1);
      if e2 == e1 then None
      else
        var e3 := WordEnd(s, e2);
        if e3 == e2 then None
        else
          var t := s[q..e3];
          assert forall k :: 0 <= k < |t| ==> t[k] == s[q + k];
          assert SpaceIn(t, e1 - q, e2 - q);
          Some(t)
  }

  /** The group matches at `q` exactly when a word, white space and a word start there. */
  lemma {:induction false} WordPairAtComplete(s: string, q: nat)
    requires q <= |s|
    ensures WordPairAt(s, q).Some? <==> PairAt(s, q)
  {
    if WordPairAt(s, q).Some? {
      var t := WordPairAt(s, q).value;
      assert s[q..q + |t|] == t;
    }
    if PairAt(s, q) {
      var e :| q <= e <= |s| && TwoWords(s[q..e]);
      var t := s[q..e];
      var i, j :| 0 < i < j < |t| && (forall k :: 0 <= k < i ==> IsWordChar(t[k]))
        && SpaceIn(t, i, j) && (forall k :: j <= k < |t| ==> IsWordChar(t[k]));
      PairRuns(s, q, e, i, j);
    }
  }

  /** The greedy runs of a pair laid out at `q` end where its parts end. */
  lemma {:induction false} PairRuns(s: string, q: nat, e: nat, i: nat, j: nat)
    requires q <= e <= |s| && 0 < i < j < e - q
    requires forall k :: 0 <= k < i ==> IsWordChar(s[q..e][k])
    requires SpaceIn(s[q..e], i, j)
    requires forall k :: j <= k < e - q ==> IsWordChar(s[q..e][k])
    ensures WordPairAt(s, q).Some?
  {
    var t := s[q..e];
    assert forall k :: 0 <= k < |t| ==> t[k] == s[q + k];
    var e1 := WordEnd(s, q);
    assert e1 == q + i by {
      assert IsSpace(s[q + i]);
      assert forall k :: q <= k < q + i ==> IsWordChar(s[k]);
    }
    var e2 := SkipSpaces(s, e1);
    assert e2 == q + j by {
      assert IsWordChar(s[q + j]);
      SkipSpacesOver(s, q + i, j - i);
    }
    assert IsWordChar(s[e2]);
  }

  /** No line terminator occurs in `[lo, hi)`: the lazy `.*?` can cross it. */
  ghost predicate OneLine(s: string, lo: nat, hi: nat)
    requires lo <= hi <= |s|
  {
    forall m :: lo <= m < hi ==> !IsLineTerminator(s[m])
  }

  /** `k` is the first position from `lo` on, before any line terminator, where a word pair
      starts. */
  ghost predicate FirstPairFrom(s: string, lo: nat, k: nat) {
    lo <= k <= |s| && OneLine(s, lo, k) && PairAt(s, k) && forall m :: lo <= m < k ==> !PairAt(s, m)
  }

  /** `.*?(\w+\s+\w+)` from `q`: the lazy `.*?` skips characters other than line
      terminators one at a time until the pair matches. */
  function TitleFrom(s: string, q: nat): (r: Option<string>)
    requires q <= |s|
    ensures r.Some? ==> TwoWords(r.value) && exists k :: q <= k && At(s, k, r.value)
    decreases |s| - q
  {
    match WordPairAt(s, q)
    case Some(t) => Some(t)
    case None =>
      if q < |s| && !IsLineTerminator(s[q]) then TitleFrom(s, q + 1) else None
  }

  /** The lazy search takes the pair at the first position where one starts, without
      crossing a line terminator, and finds nothing when no such position exists. */
  lemma {:induction false} TitleFromLeftmost(s: string, q: nat)
    requires q <= |s|
    ensures TitleFrom(s, q).Some? ==> exists k :: FirstPairFrom(s, q, k) && TitleFrom(s, q) == WordPairAt(s, k)
    ensures TitleFrom(s, q).None? ==> forall k :: q <= k <= |s| && OneLine(s, q, k) ==> !PairAt(s, k)
    decreases |s| - q
  {
    WordPairAtComplete(s, q);
    if WordPairAt(s, q).Some? {
      assert FirstPairFrom(s, q, q);
    } else if q < |s| && !IsLineTerminator(s[q]) {
      TitleFromLeftmost(s, q + 1);
      if TitleFrom(s, q).Some? {
        var k :| FirstPairFrom(s, q + 1, k) && TitleFrom(s, q + 1) == WordPairAt(s, k);
        assert FirstPairFrom(s, q, k);
      } else {
        forall k | q < k <= |s| && OneLine(s, q, k) ensures !PairAt(s, k) {
          assert OneLine(s, q + 1, k);
        }
      }
    }
  }

  /** The whole title expression can match at `m`: a case-insensitive `build`, then a word
      pair on the same line. */
  ghost predicate TitleAt(s: string, m: nat) {
    CiAt(s, m, "build") && exists k :: m + 5 <= k <= |s| && OneLine(s, m + 5, k) && PairAt(s, k)
  }

  /** The leftmost match of the whole title expression at or after `p`. */
  function TitleMatch(s: string, p: nat): (r: Option<string>)
    requires p <= |s|
    decreases |s| - p
  {
    var here := if CiAt(s, p, "build") then TitleFrom(s, p + 5) else None;
    match here
    case Some(t) => Some(t)
    case None => if p < |s| then TitleMatch(s, p + 1) else None
  }

  /** The lazy search after `build` succeeds exactly where the whole expression can match. */
  lemma {:induction false} TitleAtIff(s: string, m: nat)
    requires CiAt(s, m, "build")
    ensures TitleFrom(s, m + 5).Some? <==> TitleAt(s, m)
  {
    TitleFromLeftmost(s, m + 5);
    if TitleFrom(s, m + 5).Some? {
      var k :| FirstPairFrom(s, m + 5, k) && TitleFrom(s, m + 5) == WordPairAt(s, k);
    }
  }

  /** `build` occurs at `m`, ignoring case, and the lazy search after it finds a pair. */
  predicate BuildThenPair(s: string, m: nat) {
    CiAt(s, m, "build") && TitleFrom(s, m + 5).Some?
  }

  /** No position in `[lo, hi)` holds a `build` after which the lazy search finds a pair. */
  ghost predicate NoBuildPairBetween(s: string, lo: nat, hi: nat) {
    forall m :: lo <= m < hi ==> !BuildThenPair(s, m)
  }

  /** The title expression is matched at the leftmost `build` after which the lazy search
      finds a pair, and the match is that pair; when there is no such `build` from `p` on
      there is no match. */
  lemma {:induction false} TitleMatchLeftmost(s: string, p: nat)
    requires p <= |s|
    ensures TitleMatch(s, p).Some? ==>
      exists m :: p <= m && BuildThenPair(s, m) && NoBuildPairBetween(s, p, m) && TitleMatch(s, p) == TitleFrom(s, m + 5)
    ensures TitleMatch(s, p).None? ==> forall m :: p <= m ==> !BuildThenPair(s, m)
    decreases |s| - p
  {
    if BuildThenPair(s, p) {
      assert NoBuildPairBetween(s, p, p);
    } else if p < |s| {
      assert TitleMatch(s, p) == TitleMatch(s, p + 1);
      TitleMatchLeftmost(s, p + 1);
      if TitleMatch(s, p).Some? {
        var m :| p + 1 <= m && BuildThenPair(s, m) && NoBuildPairBetween(s, p + 1, m) && TitleMatch(s, p + 1) == TitleFrom(s, m + 5);
        assert NoBuildPairBetween(s, p, m);
      }
    } else {
      assert forall m :: p < m ==> !CiAt(s, m, "build");
    }
  }

  /** The project title derived from the user's prompt. */
  function ExtractTitle(prompt: string): string {
    match TitleMatch(prompt, 0)
    case Some(t) => t
    case None => DefaultTitle
  }

  /** The title is either the default or two words taken from the prompt, and it is the
      default when the prompt never says "build". */
  lemma {:induction false} ExtractTitleSound(prompt: string)
    ensures var r := ExtractTitle(prompt);
      r == DefaultTitle || (TwoWords(r) && Contains(prompt, r))
    ensures (forall q :: !CiAt(prompt, q, "build")) ==> ExtractTitle(prompt) == DefaultTitle
  {
    TitleMatchLeftmost(prompt, 0);
    if TitleMatch(prompt, 0).Some? {
      var m :| 0 <= m && BuildThenPair(prompt, m) && NoBuildPairBetween(prompt, 0, m)
        && TitleMatch(prompt, 0) == TitleFrom(prompt, m + 5);
    }
  }

  /** The whole title expression can match nowhere in `[lo, hi)`. */
  ghost predicate NoTitleBetween(s: string, lo: nat, hi: nat) {
    forall m :: lo <= m < hi ==> !TitleAt(s, m)
  }

  /** The leftmost position where the whole expression can match is where the search
      matches it. */
  lemma {:induction false} TitleMatchesAt(s: string, m: nat)
    requires TitleAt(s, m) && NoTitleBetween(s, 0, m)
    ensures TitleMatch(s, 0) == TitleFrom(s, m + 5)
  {
    TitleAtIff(s, m);
    forall m' | 0 <= m' < m ensures !BuildThenPair(s, m') {
      if CiAt(s, m', "build") {
        TitleAtIff(s, m');
      }
    }
    assert NoBuildPairBetween(s, 0, m) && BuildThenPair(s, m);
    TitleMatchLeftmost(s, 0);
    assert TitleMatch(s, 0).Some?;
    var m0 :| 0 <= m0 && BuildThenPair(s, m0) && NoBuildPairBetween(s, 0, m0) && TitleMatch(s, 0) == TitleFrom(s, m0 + 5);
    assert m0 == m;
  }

  /** No match at all where the whole expression can match nowhere. */
  lemma {:induction false} TitleMatchesNowhere(s: string)
    requires forall m :: !TitleAt(s, m)
    ensures TitleMatch(s, 0) == None
  {
    forall m | CiAt(s, m, "build") ensures !BuildThenPair(s, m) {
      TitleAtIff(s, m);
    }
    TitleMatchLeftmost(s, 0);
  }

  /** The title is the pair that the lazy search reaches first after the leftmost `build`
      that a pair follows on the same line, and the default when no `build` is so followed. */
  lemma {:induction false} ExtractTitleLeftmost(prompt: string)
    ensures forall m: nat :: TitleAt(prompt, m) && NoTitleBetween(prompt, 0, m) ==>
      exists k :: FirstPairFrom(prompt, m + 5, k) && Some(ExtractTitle(prompt)) == WordPairAt(prompt, k)
    ensures (forall m :: !TitleAt(prompt, m)) ==> ExtractTitle(prompt) == DefaultTitle
  {
    forall m: nat | TitleAt(prompt, m) && NoTitleBetween(prompt, 0, m)
      ensures exists k :: FirstPairFrom(prompt, m + 5, k) && Some(ExtractTitle(prompt)) == WordPairAt(prompt, k)
    {
      TitleMatchesAt(prompt, m);
      TitleFromLeftmost(prompt, m + 5);
    }
    if forall m :: !TitleAt(prompt, m) {
      TitleMatchesNowhere(prompt);
    }
  }

  /** A run of `n` word characters at `i` that nothing extends is what the greedy `\w*`
      takes. */
  lemma {:induction false} WordEndOver(s: string, i: nat, n: nat)
    requires i + n <= |s|
    requires forall k :: i <= k < i + n ==> IsWordChar(s[k])
    requires i + n == |s| || !IsWordChar(s[i + n])
    ensures WordEnd(s, i) == i + n
    decreases n
  {
    if n > 0 { WordEndOver(s, i + 1, n - 1); }
  }

  /** The characters of a word, white space and a word laid out at `k`. */
  lemma {:induction false} PairChars(s: string, k: nat, w1: string, ws: string, w2: string)
    requires At(s, k, w1 + ws + w2)
    requires forall i :: 0 <= i < |w1| ==> IsWordChar(w1[i])
    requires SpaceIn(ws, 0, |ws|)
    requires forall i :: 0 <= i < |w2| ==> IsWordChar(w2[i])
    ensures forall i :: k <= i < k + |w1| ==> IsWordChar(s[i])
    ensures SpaceIn(s, k + |w1|, k + |w1| + |ws|)
    ensures forall i :: k + |w1| + |ws| <= i < k + |w1 + ws + w2| ==> IsWordChar(s[i])
    ensures s[k..k + |w1 + ws + w2|] == w1 + ws + w2
  {
    var t := w1 + ws + w2;
    var e1, e2 := k + |w1|, k + |w1| + |ws|;
    forall i | k <= i < e1 ensures IsWordChar(s[i]) {
      var j := i - k;
      assert s[k + j] == t[j] == w1[j];
    }
    forall i | e1 <= i < e2 ensures IsSpace(s[i]) {
      var j := i - k;
      assert s[k + j] == t[j] == ws[j - |w1|];
    }
    forall i | e2 <= i < k + |t| ensures IsWordChar(s[i]) {
      var j := i - k;
      assert s[k + j] == t[j] == w2[j - |w1| - |ws|];
    }
  }

  /** A word, white space and a word laid out at `k`, the second word ending the run of word
      characters, are what the group takes there. */
  lemma {:induction false} PairLayout(s: string, k: nat, w1: string, ws: string, w2: string)
    requires At(s, k, w1 + ws + w2)
    requires w1 != [] && forall i :: 0 <= i < |w1| ==> IsWordChar(w1[i])
    requires ws != [] && SpaceIn(ws, 0, |ws|)
    requires w2 != [] && forall i :: 0 <= i < |w2| ==> IsWordChar(w2[i])
    requires k + |w1 + ws + w2| == |s| || !IsWordChar(s[k + |w1 + ws + w2|])
    ensures WordPairAt(s, k) == Some(w1 + ws + w2)
  {
    var e1, e2 := k + |w1|, k + |w1| + |ws|;
    PairChars(s, k, w1, ws, w2);
    assert IsWordChar(s[e2]) && !IsWordChar(s[e1]);
    WordEndOver(s, k, |w1|);
    SkipSpacesOver(s, e1, |ws|);
    WordEndOver(s, e2, |w2|);
  }

  /** A `build` with no earlier match of the expression, then white space on the same line,
      then a word, white space and a word that ends the run of word characters: the title is
      exactly that pair. */
  lemma {:induction false} TitleAfterBuild(s: string, m: nat, sep: string, w1: string, ws: string, w2: string)
    requires NoTitleBetween(s, 0, m) && CiAt(s, m, "build")
    requires At(s, m + 5, sep + (w1 + ws + w2))
    requires forall i :: 0 <= i < |sep| ==> IsSpace(sep[i]) && !IsLineTerminator(sep[i])
    requires w1 != [] && forall i :: 0 <= i < |w1| ==> IsWordChar(w1[i])
    requires ws != [] && SpaceIn(ws, 0, |ws|)
    requires w2 != [] && forall i :: 0 <= i < |w2| ==> IsWordChar(w2[i])
    requires m + 5 + |sep| + |w1 + ws + w2| == |s| || !IsWordChar(s[m + 5 + |sep| + |w1 + ws + w2|])
    ensures ExtractTitle(s) == w1 + ws + w2
  {
    var t := w1 + ws + w2;
    var k := m + 5 + |sep|;
    forall j | 0 <= j < |t| ensures s[k + j] == t[j] {
      assert s[m + 5 + (|sep| + j)] == (sep + t)[|sep| + j];
    }
    forall i | m + 5 <= i < k ensures IsSpace(s[i]) && !IsLineTerminator(s[i]) {
      var j := i - (m + 5);
      assert s[m + 5 + j] == (sep + t)[j] == sep[j];
    }
    PairLayout(s, k, w1, ws, w2);
    WordPairAtComplete(s, k);
    forall q | m + 5 <= q < k ensures !PairAt(s, q) {
      assert !IsWordChar(s[q]);
      WordPairAtComplete(s, q);
    }
    assert OneLine(s, m + 5, k);
    assert TitleAt(s, m);
    ExtractTitleLeftmost(s);
    var k' :| FirstPairFrom(s, m + 5, k') && Some(ExtractTitle(s)) == WordPairAt(s, k');
    assert k' == k;
  }

  /** A request used to illustrate the title expression. */
  const ExamplePrompt := "Build me a portfolio site"

  /** From the end of "Build" followed by " me a " the lazy search skips the space, where no
      pair starts, and takes "me a": the second run of word characters stops at the next
      space. */
  lemma {:induction false} ExampleSearch(s: string)
    requires |s| > 10 && s[5] == ' ' && s[6] == 'm' && s[7] == 'e' && s[8] == ' ' && s[9] == 'a' && s[10] == ' '
    ensures TitleFrom(s, 5) == Some(s[6..10])
  {
    assert WordEnd(s, 5) == 5;
    assert WordPairAt(s, 5) == None;
    assert WordEnd(s, 6) == 8;
    assert SkipSpaces(s, 8) == 9;
    assert WordEnd(s, 9) == 10;
    assert WordPairAt(s, 6) == Some(s[6..10]);
  }

  /** A request that starts "Build me a " is titled "me a", whatever follows. */
  lemma {:induction false} TitleOfBuildMeA(s: string)
    requires |s| > 10 && s[0] == 'B' && s[1] == 'u' && s[2] == 'i' && s[3] == 'l' && s[4] == 'd'
    requires s[5] == ' ' && s[6] == 'm' && s[7] == 'e' && s[8] == ' ' && s[9] == 'a' && s[10] == ' '
    ensures ExtractTitle(s) == "me a"
  {
    assert Lower('B') == 'b';
    assert CiAt(s, 0, "build");
    ExampleSearch(s);
    assert s[6..10] == "me a";
  }

  /** The title of a typical request. */
  lemma TitleExample()
    ensures ExtractTitle(ExamplePrompt) == "me a"
  {
    TitleOfBuildMeA(ExamplePrompt);
  }

  // ---------------------------------------------------------------------------------------
  // Round trip: a labelled fenced block is recovered exactly, trimmed.

  /** The closing fence is the first fence that starts at or after the body. */
  ghost predicate ClosedByFence(body: string) {
    forall k :: 0 <= k < |body| ==> !FenceAt(body + Fence, k)
  }

  /** The search passes over positions where the expression does not match. */
  lemma {:induction false} MatchFromSkips(s: string, lo: nat, hi: nat, f: FieldPattern)
    requires lo <= hi <= |s|
    requires NoMatchBetween(s, lo, hi, f)
    ensures MatchFrom(s, lo, f) == MatchFrom(s, hi, f)
    decreases hi - lo
  {
    if lo < hi {
      assert CaptureAt(s, lo, f) == None;
      assert MatchFrom(s, lo, f) == MatchFrom(s, lo + 1, f);
      MatchFromSkips(s, lo + 1, hi, f);
    }
  }

  lemma {:induction false} SkipSpacesOver(s: string, i: nat, n: nat)
    requires i + n <= |s|
    requires SpaceIn(s, i, i + n)
    requires i + n == |s| || !IsSpace(s[i + n])
    ensures SkipSpaces(s, i) == i + n
    decreases n
  {
    if n > 0 { SkipSpacesOver(s, i + 1, n - 1); }
  }

  lemma {:induction false} TrimStartDropsSpaces(x: string, k: nat)
    requires k <= |x| && SpaceIn(x, 0, k)
    ensures TrimStart(x[k..]) == TrimStart(x)
    decreases k
  {
    if k > 0 {
      assert x[1..][k - 1..] == x[k..];
      TrimStartDropsSpaces(x[1..], k - 1);
    }
  }

  /** Leading white space makes no difference to the trimmed text. */
  lemma {:induction false} TrimDropsSpaces(x: string, k: nat)
    requires k <= |x| && SpaceIn(x, 0, k)
    ensures Trim(x[k..]) == Trim(x)
  {
    TrimStartDropsSpaces(x, k);
  }

  /** The tag test sees the same answer on a text that continues with a fence, since no tag
      has a backtick in it. */
  lemma {:induction false} TagLengthOnPrefix(s: string, i: nat, u: string, tags: seq<string>)
    requires i + |u| <= |s| && s[i..i + |u|] == u
    requires |u| >= 1 && u[|u| - 1] == '`'
    requires forall t :: t in tags ==> '`' !in t
    ensures TagLength(s, i, tags) == TagLength(u, 0, tags)
  {
    if tags != [] {
      var t := tags[0];
      if |t| <= |u| {
        assert CiAt(s, i, t) <==> CiAt(u, 0, t) by {
          assert forall k :: 0 <= k < |t| ==> s[i + k] == u[k];
        }
      } else {
        assert !CiAt(s, i, t) by {
          var k := |u| - 1;
          assert s[i + k] == '`';
          assert t[k] != '`' by { assert t[k] in t; }
          assert Lower(s[i + k]) != Lower(t[k]);
        }
      }
      TagLengthOnPrefix(s, i, u, tags[1..]);
    }
  }

  /** After the opening fence the optional group takes exactly the tag the reply carries. */
  lemma {:induction false} OpeningEndAt(s: string, b: nat, tag: string, body: string, tags: seq<string>)
    requires FenceAt(s, b)
    requires forall t :: t in tags ==> '`' !in t
    requires At(s, b + 3, tag + body + Fence)
    requires TagLength(tag + body + Fence, 0, tags) == |tag|
    ensures OpeningEnd(s, b, tags) == b + 3 + |tag|
    ensures At(s, b + 3 + |tag|, body + Fence)
  {
    TagLengthOnPrefix(s, b + 3, tag + body + Fence, tags);
    AtSplit(s, b + 3, tag, body, Fence);
  }

  /** The `\s*` before the opening fence stops exactly where the fence starts. */
  lemma {:induction false} SpacesBeforeFence(s: string, i: nat, ws: string)
    requires i + |ws| <= |s| && s[i..i + |ws|] == ws
    requires SpaceIn(ws, 0, |ws|)
    requires FenceAt(s, i + |ws|)
    ensures SkipSpaces(s, i) == i + |ws|
  {
    SkipSpacesSound(s, i);
    assert forall k :: 0 <= k < |ws| ==> s[i + k] == ws[k];
    SkipSpacesOver(s, i, |ws|);
  }

  /** The lazy capture starting at `c` runs past the body's leading white space and ends
      at the fence that closes the body. */
  lemma {:induction false} BodyCapture(s: string, c: nat, body: string, d: nat)
    requires At(s, c, body + Fence)
    requires ClosedByFence(body)
    requires d == SkipSpaces(s, c)
    ensures c <= d <= c + |body| && SpaceIn(body, 0, d - c)
    ensures FindFence(s, d) == Some(c + |body|)
  {
    var e := c + |body|;
    var t := body + Fence;
    SkipSpacesSound(s, c);
    assert s[c..c + |t|] == t;
    assert forall k :: 0 <= k < |t| ==> s[c + k] == t[k];
    assert s[e] == t[|body|] == '`';
    assert !IsSpace(s[e]);
    assert d <= e;
    forall k | 0 <= k < d - c ensures IsSpace(body[k]) {
      assert s[c + k] == t[k];
    }
    forall k | c <= k < e ensures !FenceAt(s, k) {
      if FenceAt(s, k) { assert FenceAt(t, k - c); }
    }
    assert FenceAt(s, e);
    FindFenceFirst(s, d, e);
  }

  /** A text that starts with `prefix + marker` has the marker at `|prefix|`. */
  lemma {:induction false} MarkerAfterPrefix(s: string, prefix: string, f: FieldPattern)
    requires At(s, 0, prefix + f.marker)
    ensures CiAt(s, |prefix|, f.marker)
  {
    var t := prefix + f.marker;
    forall k | 0 <= k < |f.marker| ensures s[|prefix| + k] == f.marker[k] {
      assert s[|prefix| + k] == t[|prefix| + k];
    }
  }

  lemma {:induction false} AtSplit(x: string, i: nat, m1: string, m2: string, m3: string)
    requires At(x, i, m1 + m2 + m3)
    ensures At(x, i + |m1|, m2 + m3)
  {
    assert x[i + |m1|..i + |m1| + |m2 + m3|] == (m1 + m2 + m3)[|m1|..];
  }

  /** A match found at `p` itself is the leftmost one from `p`. */
  lemma {:induction false} MatchFromHere(s: string, p: nat, f: FieldPattern)
    requires p <= |s| && CaptureAt(s, p, f).Some?
    ensures MatchFrom(s, p, f) == CaptureAt(s, p, f)
  {
  }

  /** A match at `p` with none before it is the leftmost match. */
  lemma {:induction false} MatchFromFirst(s: string, p: nat, f: FieldPattern, d: nat, e: nat)
    requires NoMatchBetween(s, 0, p, f)
    requires CaptureAt(s, p, f) == Some((d, e))
    ensures MatchFrom(s, 0, f) == Some((d, e))
  {
    CaptureAtSound(s, p, f);
    MatchFromHere(s, p, f);
    MatchFromSkips(s, 0, p, f);
  }

  lemma {:induction false} CaptureAtIntro(s: string, p: nat, f: FieldPattern, b: nat, o: nat, c: nat, e: nat)
    requires CiAt(s, p, f.marker) && SkipSpaces(s, p + |f.marker|) == b && FenceAt(s, b)
    requires OpeningEnd(s, b, f.tags) == o && SkipSpaces(s, o) == c
    requires FindFence(s, c) == Some(e)
    ensures CaptureAt(s, p, f) == Some((c, e))
  {
  }

  /** The opening of a field laid out at known positions: the white space after the marker
      is skipped up to the fence, and the opening ends after the accepted tag, where the body
      and the closing fence follow. */
  lemma {:induction false} OpeningAtPositions(s: string, p: nat, f: FieldPattern, ws: string,
                                              tag: string, body: string)
    requires forall t :: t in f.tags ==> '`' !in t
    requires At(s, p + |f.marker|, ws) && SpaceIn(ws, 0, |ws|)
    requires At(s, p + |f.marker| + |ws|, Fence)
    requires At(s, p + |f.marker| + |ws| + 3, tag + body + Fence)
    requires TagLength(tag + body + Fence, 0, f.tags) == |tag|
    ensures var b := p + |f.marker| + |ws|;
      && SkipSpaces(s, p + |f.marker|) == b && FenceAt(s, b)
      && OpeningEnd(s, b, f.tags) == b + 3 + |tag| && At(s, b + 3 + |tag|, body + Fence)
  {
    var b := p + |f.marker| + |ws|;
    assert FenceAt(s, b) by { assert s[b..b + 3] == Fence; }
    SpacesBeforeFence(s, p + |f.marker|, ws);
    OpeningEndAt(s, b, tag, body, f.tags);
  }

  /** The leftmost match of a field laid out at known positions: the marker first occurs at
      `p`, white space follows it, then a fence, an accepted tag, the body and the closing
      fence. The capture starts after the body's leading white space and ends at that fence. */
  lemma {:induction false} MatchAtPositions(s: string, p: nat, f: FieldPattern, ws: string,
                                            tag: string, body: string)
    returns (d: nat)
    requires forall t :: t in f.tags ==> '`' !in t
    requires CiAt(s, p, f.marker)
    requires At(s, p + |f.marker|, ws) && SpaceIn(ws, 0, |ws|)
    requires At(s, p + |f.marker| + |ws|, Fence)
    requires At(s, p + |f.marker| + |ws| + 3, tag + body + Fence)
    requires TagLength(tag + body + Fence, 0, f.tags) == |tag|
    requires ClosedByFence(body)
    ensures var c := p + |f.marker| + |ws| + 3 + |tag|;
      c <= d <= c + |body| && SpaceIn(body, 0, d - c)
      && CaptureAt(s, p, f) == Some((d, c + |body|))
  {
    var b := p + |f.marker| + |ws|;
    var c := b + 3 + |tag|;
    var e: nat := c + |body|;
    OpeningAtPositions(s, p, f, ws, tag, body);
    d := SkipSpaces(s, c);
    BodyCapture(s, c, body, d);
    CaptureAtIntro(s, p, f, b, c, d, e);
  }

  /** The field is the trimmed capture, and white space at the start of the body does not
      change it. */
  lemma {:induction false} ExtractOfMatch(s: string, f: FieldPattern, d: nat, e: nat, body: string, n: nat)
    requires MatchFrom(s, 0, f) == Some((d, e))
    requires n <= |body| && d + |body| - n == e && e <= |s|
    requires d >= n && At(s, d - n, body) && SpaceIn(body, 0, n)
    ensures ExtractField(s, f) == Trim(body)
  {
    assert s[d..e] == body[n..];
    TrimDropsSpaces(body, n);
  }

  /** The round trip stated by positions in the reply. */
  lemma {:induction false} FieldAtPositions(s: string, p: nat, f: FieldPattern, ws: string, tag: string, body: string)
    requires forall t :: t in f.tags ==> '`' !in t
    requires NoMatchBetween(s, 0, p, f) && CiAt(s, p, f.marker)
    requires At(s, p + |f.marker|, ws) && SpaceIn(ws, 0, |ws|)
    requires At(s, p + |f.marker| + |ws|, Fence)
    requires At(s, p + |f.marker| + |ws| + 3, tag + body + Fence)
    requires TagLength(tag + body + Fence, 0, f.tags) == |tag|
    requires ClosedByFence(body)
    ensures ExtractField(s, f) == Trim(body)
  {
    var c := p + |f.marker| + |ws| + 3 + |tag|;
    var d := MatchAtPositions(s, p, f, ws, tag, body);
    var e: nat := c + |body|;
    MatchFromFirst(s, p, f, d, e);
    assert At(s, c, body) by {
      AtSplit(s, c - |tag|, tag, body, Fence);
      assert s[c..c + |body|] == (body + Fence)[..|body|];
    }
    ExtractOfMatch(s, f, d, e, body, d - c);
  }

  /** Where the parts of a labelled field sit in the text that holds it. */
  lemma {:induction false} FieldLayout(prefix: string, m: string, ws: string, tag: string,
                                       body: string, rest: string)
    ensures var s := prefix + m + ws + Fence + tag + body + Fence + rest;
      && At(s, 0, prefix + m)
      && At(s, |prefix| + |m|, ws)
      && At(s, |prefix| + |m| + |ws|, Fence)
      && At(s, |prefix| + |m| + |ws| + 3, tag + body + Fence)
  {
    var s0 := prefix + m;
    var s1 := s0 + ws;
    var s2 := s1 + Fence;
    var t := tag + body + Fence;
    var s5 := s2 + tag + body + Fence;
    var s := s5 + rest;
    forall k | 0 <= k < |s0| ensures s[k] == s0[k] {
      assert s[k] == s5[k] == s2[k] == s1[k];
    }
    forall k | 0 <= k < |ws| ensures s[|s0| + k] == ws[k] {
      assert s[|s0| + k] == s5[|s0| + k] == s2[|s0| + k] == s1[|s0| + k];
    }
    forall k | 0 <= k < 3 ensures s[|s1| + k] == Fence[k] {
      assert s[|s1| + k] == s5[|s1| + k] == s2[|s1| + k];
    }
    forall k | 0 <= k < |t| ensures s[|s2| + k] == t[k] {
      assert s[|s2| + k] == s5[|s2| + k];
    }
  }

  /** A field written as its marker, white space, a fence, an optional tag that the pattern
      accepts, a body and a closing fence is recovered as the trimmed body, whatever comes
      after it, provided the expression matches nowhere before the marker. */
  lemma {:induction false} FieldRoundTrip(prefix: string, ws: string, tag: string, body: string, rest: string,
                       f: FieldPattern)
    requires forall t :: t in f.tags ==> '`' !in t
    requires NoMatchBetween(prefix + f.marker + ws + Fence + tag + body + Fence + rest, 0, |prefix|, f)
    requires SpaceIn(ws, 0, |ws|)
    requires TagLength(tag + body + Fence, 0, f.tags) == |tag|
    requires ClosedByFence(body)
    ensures ExtractField(prefix + f.marker + ws + Fence + tag + body + Fence + rest, f) == Trim(body)
  {
    var s := prefix + f.marker + ws + Fence + tag + body + Fence + rest;
    FieldLayout(prefix, f.marker, ws, tag, body, rest);
    FieldAfterPrefix(s, prefix, f, ws, tag, body);
  }

  /** The same, for a text known only through where its parts sit. */
  lemma {:induction false} FieldAfterPrefix(s: string, prefix: string, f: FieldPattern, ws: string,
                                            tag: string, body: string)
    requires forall t :: t in f.tags ==> '`' !in t
    requires NoMatchBetween(s, 0, |prefix|, f)
    requires SpaceIn(ws, 0, |ws|)
    requires TagLength(tag + body + Fence, 0, f.tags) == |tag|
    requires ClosedByFence(body)
    requires At(s, 0, prefix + f.marker)
    requires At(s, |prefix| + |f.marker|, ws)
    requires At(s, |prefix| + |f.marker| + |ws|, Fence)
    requires At(s, |prefix| + |f.marker| + |ws| + 3, tag + body + Fence)
    ensures ExtractField(s, f) == Trim(body)
  {
    MarkerAfterPrefix(s, prefix, f);
    FieldAtPositions(s, |prefix|, f, ws, tag, body);
  }
}
