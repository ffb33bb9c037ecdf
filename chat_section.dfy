/** The chat transcript view: how an assistant reply is cut into sections and which of them
    are shown, the character-by-character typing of the newest reply, the send box, and the
    buttons that lead to the generated code. */
module ChatSection {
  import opened Text
  import opened CodeModel

  const ExplanationLabel := "EXPLANATION:"

  /** One of the labels `HTML:`, `CSS:`, `JS:`, `EXPLANATION:` starts at `q`. Unlike the
      parser's labels these are matched with their case. */
  predicate MarkerAt(s: string, q: nat) {
    At(s, q, "HTML:") || At(s, q, "CSS:") || At(s, q, "JS:") || At(s, q, ExplanationLabel)
  }

  /** No label starts anywhere in `s` but at its very beginning. */
  predicate NoInnerMarker(s: string) {
    forall k :: 0 < k < |s| ==> !MarkerAt(s, k)
  }

  /** The pieces of `s[p..]`, where the current piece starts at `p` and the scan has reached
      `q`: a new piece starts at every later position where a label starts. */
  function SplitFrom(s: string, p: nat, q: nat): (r: seq<string>)
    requires p < q && p <= |s|
    ensures |r| >= 1
    decreases |s| - q
  {
    if q >= |s| then [s[p..]]
    else if MarkerAt(s, q) then [s[p..q]] + SplitFrom(s, q, q + 1)
    else SplitFrom(s, p, q + 1)
  }

  /** Splitting before every label with a look-ahead. A zero-width match at position 0 does
      not make an empty first piece, and `""` gives `[""]`. */
  function Split(s: string): seq<string> {
    SplitFrom(s, 0, 1)
  }

  function Concat(ss: seq<string>): string {
    if ss == [] then "" else ss[0] + Concat(ss[1..])
  }

  /** A label found inside a slice is a label of the whole text. */
  lemma {:induction false} MarkerOfSlice(s: string, i: nat, j: nat, k: nat)
    requires i <= j <= |s| && MarkerAt(s[i..j], k)
    ensures MarkerAt(s, i + k)
  {
    forall m: string, t | At(s[i..j], k, m) && 0 <= t < |m| ensures s[i + k + t] == m[t] {
      assert s[i..j][k + t] == m[t];
    }
  }

  /** A label of the text is a label at the start of the suffix it begins. */
  lemma {:induction false} MarkerOfSuffix(s: string, q: nat)
    requires q <= |s| && MarkerAt(s, q)
    ensures MarkerAt(s[q..], 0)
  {
    forall m: string, t | At(s, q, m) && 0 <= t < |m| ensures s[q..][t] == m[t] {
      assert s[q + t] == m[t];
    }
  }

  /** The pieces put back together give the text. */
  lemma {:induction false} SplitFromConcat(s: string, p: nat, q: nat)
    requires p < q && p <= |s|
    ensures Concat(SplitFrom(s, p, q)) == s[p..]
    decreases |s| - q
  {
    var r := SplitFrom(s, p, q);
    if q >= |s| {
      assert Concat(r) == s[p..] + Concat([]);
    } else if MarkerAt(s, q) {
      var rest := SplitFrom(s, q, q + 1);
      SplitFromConcat(s, q, q + 1);
      assert r[1..] == rest;
      assert s[p..] == s[p..q] + s[q..];
    } else {
      SplitFromConcat(s, p, q + 1);
    }
  }

  /** Every piece after the first starts with a label: each cut was made before one. */
  predicate CutsAtMarkers(r: seq<string>) {
    forall i :: 0 < i < |r| ==> MarkerAt(Concat(r[i..]), 0)
  }

  /** A piece put in front of pieces cut at labels, where the text they make starts with a
      label, keeps every cut at a label. */
  lemma {:induction false} CutsCons(x: string, rest: seq<string>)
    requires CutsAtMarkers(rest) && MarkerAt(Concat(rest), 0)
    ensures CutsAtMarkers([x] + rest)
  {
    var r := [x] + rest;
    forall i | 0 < i < |r| ensures MarkerAt(Concat(r[i..]), 0) {
      assert r[i..] == rest[i - 1..];
      if i == 1 {
        assert rest[0..] == rest;
      }
    }
  }

  lemma {:induction false} SplitFromCuts(s: string, p: nat, q: nat)
    requires p < q && p <= |s|
    ensures CutsAtMarkers(SplitFrom(s, p, q))
    decreases |s| - q
  {
    if q < |s| && MarkerAt(s, q) {
      SplitFromCuts(s, q, q + 1);
      CutsAtLabel(s, p, q);
    } else if q < |s| {
      SplitFromCuts(s, p, q + 1);
    }
  }

  /** A cut made before a label keeps every cut at a label. */
  lemma {:induction false} CutsAtLabel(s: string, p: nat, q: nat)
    requires p < q < |s| && MarkerAt(s, q)
    requires CutsAtMarkers(SplitFrom(s, q, q + 1))
    ensures CutsAtMarkers(SplitFrom(s, p, q))
  {
    SplitFromConcat(s, q, q + 1);
    MarkerOfSuffix(s, q);
    CutsCons(s[p..q], SplitFrom(s, q, q + 1));
  }

  /** No piece holds a label after its first character. */
  predicate NoInnerMarkers(r: seq<string>) {
    forall i :: 0 <= i < |r| ==> NoInnerMarker(r[i])
  }

  /** No piece holds a label after its first character, and when there is text left to
      split no piece is empty. */
  lemma {:induction false} SplitFromPieces(s: string, p: nat, q: nat)
    requires p < q && p <= |s|
    requires forall k :: p < k < q && k < |s| ==> !MarkerAt(s, k)
    ensures NoInnerMarkers(SplitFrom(s, p, q))
    ensures p < |s| ==> forall i :: 0 <= i < |SplitFrom(s, p, q)| ==> SplitFrom(s, p, q)[i] != ""
    decreases |s| - q
  {
    var r := SplitFrom(s, p, q);
    if q >= |s| {
      assert r == [s[p..]];
      assert s[p..] == s[p..|s|];
      forall k | 0 < k < |r[0]| ensures !MarkerAt(r[0], k) {
        if MarkerAt(r[0], k) {
          MarkerOfSlice(s, p, |s|, k);
        }
      }
    } else if MarkerAt(s, q) {
      var rest := SplitFrom(s, q, q + 1);
      assert r == [s[p..q]] + rest;
      SplitFromPieces(s, q, q + 1);
      forall k | 0 < k < q - p ensures !MarkerAt(s[p..q], k) {
        if MarkerAt(s[p..q], k) {
          MarkerOfSlice(s, p, q, k);
        }
      }
      assert NoInnerMarker(r[0]);
      assert forall i :: 1 <= i < |r| ==> r[i] == rest[i - 1];
    } else {
      assert r == SplitFrom(s, p, q + 1);
      SplitFromPieces(s, p, q + 1);
    }
  }

  /** The split of a whole text: the pieces give the text back, each piece after the first
      begins the rest of the text with a label, and no label is left inside a piece. */
  lemma {:induction false} SplitSound(s: string)
    ensures var r := Split(s);
      && Concat(r) == s
      && (forall i :: 0 < i < |r| ==> MarkerAt(Concat(r[i..]), 0))
      && NoInnerMarkers(r)
      && (s != "" ==> forall i :: 0 <= i < |r| ==> r[i] != "")
  {
    SplitFromConcat(s, 0, 1);
    SplitFromCuts(s, 0, 1);
    SplitFromPieces(s, 0, 1);
    assert s[0..] == s;
  }

  lemma {:induction false} SplitFromOne(s: string, p: nat, q: nat)
    requires p < q && p <= |s|
    ensures |SplitFrom(s, p, q)| == 1 <==> forall k :: q <= k < |s| ==> !MarkerAt(s, k)
    decreases |s| - q
  {
    if q < |s| && !MarkerAt(s, q) {
      SplitFromOne(s, p, q + 1);
    }
  }

  /** The text stays in one piece exactly when no label starts after its first character. */
  lemma {:induction false} SplitSingle(s: string)
    ensures |Split(s)| == 1 <==> NoInnerMarker(s)
  {
    SplitFromOne(s, 0, 1);
  }

  /** Positions without a label do not change the pieces. */
  lemma {:induction false} SplitFromSkip(s: string, p: nat, q: nat, j: nat)
    requires p < q <= j <= |s|
    requires forall k :: q <= k < j ==> !MarkerAt(s, k)
    ensures SplitFrom(s, p, q) == SplitFrom(s, p, j)
    decreases j - q
  {
    if q < j {
      SplitFromSkip(s, p, q + 1, j);
    }
  }

  /** What is shown for an assistant message: the whole content, or the explanations picked
      out of its sections. */
  datatype Shown = Whole(text: string) | Explanations(texts: seq<string>)

  /** For every section that starts with the explanation label, in order: the section with
      that first label removed, trimmed. The other sections are dropped. */
  function ExplanationsOf(sections: seq<string>): seq<string> {
    if sections == [] then []
    else
      var rest := ExplanationsOf(sections[1..]);
      if At(sections[0], 0, ExplanationLabel)
      then [Trim(sections[0][|ExplanationLabel|..])] + rest
      else rest
  }

  /** `formatMessageContent` without the markup. */
  function FormatMessageContent(content: string): Shown {
    var sections := Split(content);
    if |sections| > 1 then Explanations(ExplanationsOf(sections)) else Whole(content)
  }

  /** The content is shown whole, unchanged, exactly when no label starts after its first
      character; this includes content that begins with the explanation label. */
  lemma {:induction false} FormatWholeIff(content: string)
    ensures FormatMessageContent(content).Whole? <==> NoInnerMarker(content)
    ensures FormatMessageContent(content).Whole? ==> FormatMessageContent(content).text == content
  {
    SplitSingle(content);
  }

  /** Pieces cut from a stretch of text without the explanation label contribute no
      explanation. */
  lemma {:induction false} NoExplanationFrom(s: string, p: nat, q: nat)
    requires p < q && p <= |s|
    requires forall k :: p <= k < |s| ==> !At(s, k, ExplanationLabel)
    ensures ExplanationsOf(SplitFrom(s, p, q)) == []
    decreases |s| - q
  {
    if q >= |s| {
      AtOfSlice(s, p, |s|, 0, ExplanationLabel);
      assert s[p..] == s[p..|s|];
      assert [s[p..]][1..] == [];
    } else if MarkerAt(s, q) {
      var r := SplitFrom(s, p, q);
      var rest := SplitFrom(s, q, q + 1);
      NoExplanationFrom(s, q, q + 1);
      AtOfSlice(s, p, q, 0, ExplanationLabel);
      assert r == [s[p..q]] + rest;
      assert r[1..] == rest;
    } else {
      NoExplanationFrom(s, p, q + 1);
    }
  }

  /** A reply made only of code sections shows no text at all: its content has labels but
      none of them is the explanation label, so every section is dropped. */
  lemma {:induction false} CodeOnlyShowsNothing(content: string)
    requires !NoInnerMarker(content)
    requires forall k :: 0 <= k < |content| ==> !At(content, k, ExplanationLabel)
    ensures FormatMessageContent(content) == Explanations([])
  {
    SplitSingle(content);
    NoExplanationFrom(content, 0, 1);
  }

  /** The first piece runs from the start to the first label after it, and when it is the
      only one to start with the explanation label, its explanation is all that is shown. */
  lemma {:induction false} FirstSectionExplains(s: string, m: nat)
    requires 0 < m < |s|
    requires forall k :: 0 < k < m ==> !MarkerAt(s, k)
    requires MarkerAt(s, m)
    requires forall k :: m <= k < |s| ==> !At(s, k, ExplanationLabel)
    requires At(s[..m], 0, ExplanationLabel)
    ensures FormatMessageContent(s) == Explanations([Trim(s[..m][|ExplanationLabel|..])])
  {
    SplitFromSkip(s, 0, 1, m);
    var rest := SplitFrom(s, m, m + 1);
    var r := Split(s);
    assert r == [s[0..m]] + rest;
    assert r[1..] == rest;
    NoExplanationFrom(s, m, m + 1);
  }

  /** A reply in the requested format, the explanation label and its text `x` followed by a
      code label and sections without a further explanation label, shows exactly the trimmed
      explanation `x`. */
  lemma {:induction false} ReplyShowsExplanation(x: string, tail: string)
    requires var s := ExplanationLabel + x + tail;
      && (forall k :: 0 < k < |ExplanationLabel + x| ==> !MarkerAt(s, k))
      && MarkerAt(s, |ExplanationLabel + x|)
      && (forall k :: |ExplanationLabel + x| <= k < |s| ==> !At(s, k, ExplanationLabel))
    ensures FormatMessageContent(ExplanationLabel + x + tail) == Explanations([Trim(x)])
  {
    var s := ExplanationLabel + x + tail;
    var m := |ExplanationLabel + x|;
    assert s[..m] == ExplanationLabel + x;
    assert At(s[..m], 0, ExplanationLabel) by {
      forall t | 0 <= t < |ExplanationLabel| ensures s[..m][t] == ExplanationLabel[t] {
        assert s[..m][t] == (ExplanationLabel + x)[t];
      }
    }
    assert s[..m][|ExplanationLabel|..] == x;
    FirstSectionExplains(s, m);
  }

  /** How message `i` of the transcript is rendered: a user message as its text; an
      assistant message as its formatted content, typed out or at once, and the buttons that
      open a code tab. */
  datatype MessageView =
    | Plain(text: string)
    | Reply(shown: Shown, typed: bool, buttons: seq<Section>)

  /** The buttons under an assistant message that open a code tab: none while the message is
      marked as streaming or when no section holds code, otherwise one per non-empty section
      in tab order. */
  function CodeButtons(m: Message, code: Code): seq<Section> {
    if m.isStreaming || !HasCode(code) then []
    else
      (if code.html != "" then [Html] else [])
      + (if code.css != "" then [Css] else [])
      + (if code.js != "" then [Js] else [])
  }

  function ViewOf(ms: seq<Message>, i: nat, code: Code): MessageView
    requires i < |ms|
  {
    match ms[i].role
    case User => Plain(ms[i].content)
    case Assistant =>
      Reply(FormatMessageContent(ms[i].content), i == |ms| - 1 && ms[i].isStreaming,
        CodeButtons(ms[i], code))
  }

  /** A section has a button under an assistant message exactly when the message is not
      marked as streaming and that section holds code; the buttons come in tab order. */
  lemma {:induction false} ButtonsIff(ms: seq<Message>, i: nat, code: Code)
    requires i < |ms| && ms[i].role == Assistant
    ensures var v := ViewOf(ms, i, code);
      && v.Reply?
      && (forall s :: s in v.buttons <==> !ms[i].isStreaming && Field(code, s) != "")
      && (forall a, b :: 0 <= a < b < |v.buttons| ==> Rank(v.buttons[a]) < Rank(v.buttons[b]))
  {
    var v := ViewOf(ms, i, code);
    forall s ensures s in v.buttons <==> !ms[i].isStreaming && Field(code, s) != "" {
      match s
      case Html =>
      case Css =>
      case Js =>
    }
  }

  /** Only the last message can be typed out, and only when it is an assistant message
      marked as streaming; every other message is shown at once. */
  lemma {:induction false} TypedOnlyLast(ms: seq<Message>, i: nat, code: Code)
    requires i < |ms|
    ensures var v := ViewOf(ms, i, code);
      v.Reply? && v.typed <==> i == |ms| - 1 && ms[i].role == Assistant && ms[i].isStreaming
  {
  }

  /** The character-by-character display of a reply. `textRef` is the text the display was
      last reset for; `completions` counts the calls of the completion callback. */
  class StreamingText {
    var text: string
    var textRef: string
    var displayedText: string
    var currentIndex: nat
    var isComplete: bool
    var completions: nat

    /** What is displayed is always the first `currentIndex` characters of the text, and the
        display is complete only when all of them are shown. */
    predicate Valid()
      reads this
    {
      && textRef == text
      && currentIndex <= |text|
      && displayedText == text[..currentIndex]
      && (isComplete ==> text != "" && currentIndex == |text|)
    }

    constructor(t: string)
      ensures Valid() && text == t
      ensures displayedText == "" && currentIndex == 0 && !isComplete && completions == 0
    {
      text, textRef, displayedText, currentIndex, isComplete, completions := t, t, "", 0, false, 0;
    }

    /** The next character is due. */
    predicate CanTick()
      reads this
    {
      text != "" && currentIndex < |text| && !isComplete
    }

    /** Every character is shown but completion has not been signalled yet. */
    predicate CanFinish()
      reads this
    {
      text != "" && currentIndex >= |text| && !isComplete
    }

    /** A new `text` prop: a different text starts the display again from nothing. */
    method SetText(t: string)
      requires Valid()
      modifies this`text, this`textRef, this`displayedText, this`currentIndex, this`isComplete
      ensures Valid() && text == t
      ensures t != old(text) ==> displayedText == "" && currentIndex == 0 && !isComplete
      ensures t == old(text) ==>
        displayedText == old(displayedText) && currentIndex == old(currentIndex) && isComplete == old(isComplete)
    {
      if t != textRef {
        text, textRef, displayedText, currentIndex, isComplete := t, t, "", 0, false;
      } else {
        text := t;
      }
    }

    /** One timer expiry: exactly one more character of the text is shown. */
    method Tick()
      requires Valid() && CanTick()
      modifies this`displayedText, this`currentIndex
      ensures Valid()
      ensures currentIndex == old(currentIndex) + 1
      ensures displayedText == old(displayedText) + [text[old(currentIndex)]]
    {
      assert text[..currentIndex + 1] == text[..currentIndex] + [text[currentIndex]];
      displayedText, currentIndex := displayedText + [text[currentIndex]], currentIndex + 1;
    }

    /** The whole text is shown: the display completes and the callback fires. */
    method Finish()
      requires Valid() && CanFinish()
      modifies this`isComplete, this`completions
      ensures Valid() && isComplete && displayedText == text
      ensures completions == old(completions) + 1
    {
      isComplete, completions := true, completions + 1;
    }

    /** The effect runs until nothing is due. A non-empty text ends fully shown, with the
        callback fired once if it had not fired for this text yet; an empty text shows
        nothing and never completes. */
    method Play()
      requires Valid()
      modifies this`displayedText, this`currentIndex, this`isComplete, this`completions
      ensures Valid() && !CanTick() && !CanFinish()
      ensures text != "" ==> displayedText == text && isComplete
      ensures text != "" ==> completions == old(completions) + (if old(isComplete) then 0 else 1)
      ensures text == "" ==> displayedText == "" && !isComplete && completions == old(completions)
    {
      while CanTick()
        invariant Valid()
        invariant isComplete == old(isComplete) && completions == old(completions)
        decreases |text| - currentIndex
      {
        Tick();
      }
      if CanFinish() {
        Finish();
      }
    }
  }

  /** Once the display is complete nothing more is due until the text changes, so the
      completion callback fires at most once per text. */
  lemma {:induction false} CompleteIsFinal(t: StreamingText)
    requires t.Valid() && t.isComplete
    ensures !t.CanTick() && !t.CanFinish() && t.displayedText == t.text
  {
  }

  /** The message box. */
  class ChatInput {
    var input: string

    constructor()
      ensures input == ""
    {
      input := "";
    }

    /** `handleSubmit`: a non-blank input is sent trimmed and the box is cleared, unless a
        reply is being generated; otherwise nothing happens. */
    method Submit(isGenerating: bool) returns (sent: Option<string>)
      modifies this`input
      ensures Trim(old(input)) != "" && !isGenerating ==> sent == Some(Trim(old(input))) && input == ""
      ensures Trim(old(input)) == "" || isGenerating ==> sent == None && input == old(input)
      ensures sent.Some? ==> sent.value != "" && !IsSpace(sent.value[0]) && !IsSpace(sent.value[|sent.value| - 1])
    {
      var t := Trim(input);
      if t != "" && !isGenerating {
        sent, input := Some(t), "";
      } else {
        sent := None;
      }
    }

    /** `handleKeyDown`: Enter without Shift submits, any other key (Shift+Enter included)
        leaves the box to the text area. */
    method KeyDown(key: string, shiftKey: bool, isGenerating: bool) returns (sent: Option<string>)
      modifies this`input
      ensures key == "Enter" && !shiftKey && Trim(old(input)) != "" && !isGenerating ==>
        sent == Some(Trim(old(input))) && input == ""
      ensures (key != "Enter" || shiftKey || Trim(old(input)) == "" || isGenerating) ==>
        sent == None && input == old(input)
    {
      if key == "Enter" && !shiftKey {
        sent := Submit(isGenerating);
      } else {
        sent := None;
      }
    }
  }
}
