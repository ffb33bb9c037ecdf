/** The main page: the current chat session and the archive of earlier ones, sending a
    prompt and asking for an improvement, parsing the reply into code, and the timed animation
    of that code. React state becomes the fields of `Page`; every `await` splits an
    operation into a method for the part before it and one for the part after it, and every
    timer expiry is a method of its own. */
module IndexPage {
  import opened Text
  import opened CodeModel
  import opened ResponseParser
  import opened CodeTyping
  import opened ImprovementText

  /** A chat: its transcript and, once code has been generated in it, that code and the
      project title. The source's id is `Date.now().toString()` (or `'1'` for the first
      chat); the model keeps the millisecond count itself, which `DecimalRoundTrip` shows the
      string determines, so ids compare equal exactly when their strings do. */
  datatype ChatSession = ChatSession(id: nat, title: string, messages: seq<Message>,
                                     createdAt: nat, generatedCode: Option<Code>,
                                     projectTitle: Option<string>)

  const NewChatTitle := "New Chat"

  // ---------------------------------------------------------------------------------------
  // Session ids: `Date.now().toString()`

  function Digit(d: nat): (c: char)
    requires d < 10
    ensures '0' <= c <= '9'
  {
    (48 + d) as char
  }

  /** The decimal digits of `n`, most significant first, without leading zeros. */
  function DecimalString(n: nat): string {
    if n < 10 then [Digit(n)] else DecimalString(n / 10) + [Digit(n % 10)]
  }

  predicate AllDigits(s: string) {
    forall i :: 0 <= i < |s| ==> '0' <= s[i] <= '9'
  }

  /** Every character is a digit, and there is no leading zero. */
  lemma {:induction false} DecimalDigits(n: nat)
    ensures |DecimalString(n)| >= 1 && AllDigits(DecimalString(n))
    ensures |DecimalString(n)| > 1 ==> DecimalString(n)[0] != '0'
  {
    if n >= 10 {
      DecimalDigits(n / 10);
    }
  }

  /** The number a string of decimal digits denotes. */
  function DecimalValue(s: string): nat
    requires AllDigits(s)
  {
    if s == [] then 0 else DecimalValue(s[..|s| - 1]) * 10 + (s[|s| - 1] as int - 48)
  }

  /** Reading the digits back gives the number. */
  lemma {:induction false} DecimalRoundTrip(n: nat)
    ensures AllDigits(DecimalString(n)) && DecimalValue(DecimalString(n)) == n
  {
    DecimalDigits(n);
    if n >= 10 {
      var s := DecimalString(n);
      assert s[..|s| - 1] == DecimalString(n / 10);
      DecimalRoundTrip(n / 10);
    }
  }

  /** Chats created at different milliseconds get different ids. */
  lemma {:induction false} DistinctTimesDistinctIds(a: nat, b: nat)
    requires a != b
    ensures DecimalString(a) != DecimalString(b)
  {
    DecimalRoundTrip(a);
    DecimalRoundTrip(b);
  }

  // ---------------------------------------------------------------------------------------
  // The archive

  /** `sessions.filter(c => c.id !== id)`. */
  function WithoutId(ss: seq<ChatSession>, id: nat): (r: seq<ChatSession>)
    ensures |r| <= |ss|
  {
    if ss == [] then [] else (if ss[0].id == id then [] else [ss[0]]) + WithoutId(ss[1..], id)
  }

  /** The filter keeps exactly the sessions with another id. */
  lemma {:induction false} WithoutIdMembers(ss: seq<ChatSession>, id: nat)
    ensures forall x :: x in WithoutId(ss, id) <==> x in ss && x.id != id
  {
    if ss != [] {
      WithoutIdMembers(ss[1..], id);
      assert ss == [ss[0]] + ss[1..];
    }
  }

  /** The filter keeps every other session as often as it occurred, duplicates included,
      and drops every copy of the id. */
  lemma {:induction false} WithoutIdCounts(ss: seq<ChatSession>, id: nat, x: ChatSession)
    ensures multiset(WithoutId(ss, id))[x] == if x.id == id then 0 else multiset(ss)[x]
  {
    if ss != [] {
      WithoutIdCounts(ss[1..], id, x);
      assert ss == [ss[0]] + ss[1..];
    }
  }

  /** The archive after `switchToChat(chat)`: the current session's id filtered out, the
      current session appended. */
  function SwitchArchive(ss: seq<ChatSession>, current: ChatSession): (r: seq<ChatSession>)
    ensures |r| >= 1 && r[|r| - 1] == current
  {
    WithoutId(ss, current.id) + [current]
  }

  /** After a switch the archive holds the session switched away from and every archived
      session with another id, and nothing else. */
  lemma SwitchArchiveMembers(ss: seq<ChatSession>, current: ChatSession)
    ensures forall x :: x in SwitchArchive(ss, current) <==> x == current || (x in ss && x.id != current.id)
  {
    WithoutIdMembers(ss, current.id);
  }

  /** Switching does not take the target out of the archive: a chat opened from the
      archive is still listed there, and a later switch away adds a second copy of it. */
  lemma SwitchKeepsTarget(ss: seq<ChatSession>, current: ChatSession, chat: ChatSession)
    requires chat in ss && chat.id != current.id
    ensures chat in SwitchArchive(ss, current)
  {
    SwitchArchiveMembers(ss, current);
  }

  lemma {:induction false} SwitchTwiceDuplicates(ss: seq<ChatSession>, a: ChatSession, b: ChatSession)
    requires b in ss && b.id != a.id
    ensures multiset(SwitchArchive(SwitchArchive(ss, a), b))[b] >= 1
    ensures multiset(SwitchArchive(SwitchArchive(ss, a), b))[a] >= 1
  {
    var s1 := SwitchArchive(ss, a);
    WithoutIdCounts(s1, b.id, a);
    SwitchKeepsTarget(ss, a, b);
    assert a in s1;
  }

  // ---------------------------------------------------------------------------------------
  // Sending and improving

  /** The result of the call to the text-generation service: a failed HTTP request, a reply
      without message content, or the content. */
  datatype ApiReply = HttpError(status: int) | NoContent | Content(text: string)

  /** The call fails up front when no API key is configured, fails on an HTTP error or a
      reply without content, and otherwise yields the content, which may be empty. */
  function CallResult(apiKey: string, reply: ApiReply): (r: Option<string>)
    ensures Trim(apiKey) == "" ==> r.None?
    ensures Trim(apiKey) != "" ==> (r.Some? <==> reply.Content?)
    ensures r.Some? ==> reply == Content(r.value)
  {
    if Trim(apiKey) == "" then None
    else match reply
      case Content(t) => Some(t)
      case _ => None
  }

  /** `message.slice(0, 30) + '...'`: at most the first 30 characters, and the dots are
      added even when nothing was cut. */
  function FirstMessageTitle(message: string): (r: string)
    ensures |r| == (if |message| < 30 then |message| else 30) + 3
    ensures r[..|r| - 3] <= message && r[|r| - 3..] == "..."
    ensures |message| <= 30 ==> r == message + "..."
  {
    var n := if |message| < 30 then |message| else 30;
    var r := message[..n] + "...";
    assert r[..n] == message[..n];
    r
  }

  /** A first message always renames the chat away from its default title. */
  lemma FirstTitleIsNotDefault(message: string)
    ensures FirstMessageTitle(message) != NewChatTitle
  {
  }

  /** `ms[i]` is the last user message of `ms`. */
  ghost predicate LastUserAt(ms: seq<Message>, i: nat)
    requires i < |ms|
  {
    ms[i].role == User && forall j :: i < j < |ms| ==> ms[j].role != User
  }

  /** The content of the last user message, or `""` when there is none. */
  function LastUserPrompt(ms: seq<Message>): (r: string)
    ensures forall i :: 0 <= i < |ms| && LastUserAt(ms, i) ==> r == ms[i].content
    ensures r != "" ==> exists i :: 0 <= i < |ms| && LastUserAt(ms, i) && ms[i].content == r
    ensures (forall i :: 0 <= i < |ms| ==> ms[i].role != User) ==> r == ""
  {
    if ms == [] then ""
    else if ms[|ms| - 1].role == User then ms[|ms| - 1].content
    else
      var r := LastUserPrompt(ms[..|ms| - 1]);
      assert forall j :: 0 <= j < |ms| - 1 ==> ms[..|ms| - 1][j] == ms[j];
      r
  }

  /** What a send remembers across the `await`: the session as the handler saw it when it
      was called, and the user message it appended. */
  datatype SendContext = SendContext(snapshot: ChatSession, user: Message)

  /** What an improvement remembers across the `await`: the session as the handler saw it,
      and the composed prompt. */
  datatype ImproveContext = ImproveContext(snapshot: ChatSession, prompt: string)

  class Page {
    var current: ChatSession
    var sessions: seq<ChatSession>
    var generatedCode: Code
    var isGenerating: bool
    var currentlyGenerating: Option<Section>
    var showCodeEditor: bool
    var showPreview: bool
    var showChatManagement: bool
    var projectTitle: string
    var activeTab: Section
    var isWebsiteLive: bool
    var showImprovementSection: bool
    var defaultViewMode: ViewMode
    /** The code a pending 2000 ms animation timer will type, if one is pending. */
    var pendingTyping: Option<Code>
    /** The running animation, and the code it types. */
    var animation: Pc
    var typingTarget: Code

    /** The part of the state the animation drives. */
    function Display(): Screen
      reads this
    {
      Screen(generatedCode, activeTab, currentlyGenerating, isWebsiteLive, defaultViewMode)
    }

    /** The running animation shows what its position says. */
    predicate TypingShown()
      reads this
    {
      Reachable(typingTarget, animation) && !animation.Idle? && generatedCode == Shown(typingTarget, animation)
    }

    /** The initial state, at time `now`. */
    constructor(now: nat)
      ensures current == ChatSession(1, NewChatTitle, [], now, None, None) && sessions == []
      ensures generatedCode == NoCode && !isGenerating && currentlyGenerating == None
      ensures !showCodeEditor && !showPreview && !showChatManagement && !showImprovementSection
      ensures projectTitle == "" && activeTab == Html && !isWebsiteLive && defaultViewMode == CodeView
      ensures pendingTyping == None && animation == Idle
    {
      current := ChatSession(1, NewChatTitle, [], now, None, None);
      sessions := [];
      generatedCode := NoCode;
      isGenerating := false;
      currentlyGenerating := None;
      showCodeEditor := false;
      showPreview := false;
      showChatManagement := false;
      projectTitle := "";
      activeTab := Html;
      isWebsiteLive := false;
      showImprovementSection := false;
      defaultViewMode := CodeView;
      pendingTyping := None;
      animation := Idle;
      typingTarget := NoCode;
    }

    /** `createNewChat`: the current session is appended to the archive, even if a copy of
        it is already there, and a fresh empty chat replaces it; code, pointer, title, live
        flag and panels are cleared. Generation, the tab and the animation are left alone. */
    method CreateNewChat(now: nat)
      modifies this`sessions, this`current, this`generatedCode, this`currentlyGenerating
      modifies this`projectTitle, this`isWebsiteLive, this`defaultViewMode
      modifies this`showCodeEditor, this`showPreview, this`showChatManagement, this`showImprovementSection
      ensures sessions == old(sessions) + [old(current)]
      ensures current == ChatSession(now, NewChatTitle, [], now, None, None)
      ensures generatedCode == NoCode && currentlyGenerating == None && projectTitle == ""
      ensures !isWebsiteLive && defaultViewMode == CodeView
      ensures !showCodeEditor && !showPreview && !showChatManagement && !showImprovementSection
    {
      sessions, current, generatedCode, currentlyGenerating, projectTitle, isWebsiteLive, defaultViewMode,
        showCodeEditor, showPreview, showChatManagement, showImprovementSection :=
        sessions + [current], ChatSession(now, NewChatTitle, [], now, None, None), NoCode, None, "", false, CodeView,
        false, false, false, false;
    }

    /** `deleteChat(id)`: every archived copy with that id goes; if it is the current chat,
        a new chat is created, which puts the deleted session straight back. */
    method DeleteChat(id: nat, now: nat)
      modifies this`sessions, this`current, this`generatedCode, this`currentlyGenerating
      modifies this`projectTitle, this`isWebsiteLive, this`defaultViewMode
      modifies this`showCodeEditor, this`showPreview, this`showChatManagement, this`showImprovementSection
      ensures old(current.id) != id ==>
        sessions == WithoutId(old(sessions), id) && current == old(current)
        && generatedCode == old(generatedCode) && isWebsiteLive == old(isWebsiteLive)
        && projectTitle == old(projectTitle) && currentlyGenerating == old(currentlyGenerating)
        && defaultViewMode == old(defaultViewMode)
        && showCodeEditor == old(showCodeEditor) && showPreview == old(showPreview)
        && showChatManagement == old(showChatManagement) && showImprovementSection == old(showImprovementSection)
      ensures old(current.id) != id ==> forall x :: x in sessions ==> x.id != id
      ensures old(current.id) == id ==>
        sessions == WithoutId(old(sessions), id) + [old(current)]
        && current == ChatSession(now, NewChatTitle, [], now, None, None)
        && generatedCode == NoCode && !isWebsiteLive && projectTitle == "" && currentlyGenerating == None
        && defaultViewMode == CodeView
        && !showCodeEditor && !showPreview && !showChatManagement && !showImprovementSection
      ensures old(current.id) == id ==> old(current) in sessions
    {
      WithoutIdMembers(sessions, id);
      sessions := WithoutId(sessions, id);
      if current.id == id {
        CreateNewChat(now);
      }
    }

    /** `switchToChat(chat)`: the current session replaces its archived copies at the end
        of the archive, the target is left in the archive, and the code and title are
        restored from the target, with the site live, exactly when it has code. */
    method SwitchToChat(chat: ChatSession)
      modifies this`sessions, this`current, this`generatedCode, this`currentlyGenerating
      modifies this`projectTitle, this`isWebsiteLive, this`defaultViewMode
      modifies this`showCodeEditor, this`showPreview, this`showChatManagement, this`showImprovementSection
      ensures sessions == SwitchArchive(old(sessions), old(current))
      ensures chat in old(sessions) && chat.id != old(current.id) ==> chat in sessions
      ensures current == chat && !showChatManagement && currentlyGenerating == None
      ensures defaultViewMode == CodeView
      ensures chat.generatedCode.Some? ==>
        generatedCode == chat.generatedCode.value && showCodeEditor && isWebsiteLive
        && showImprovementSection && showPreview == old(showPreview)
        && projectTitle == (match chat.projectTitle case Some(t) => t case None => "")
      ensures chat.generatedCode.None? ==>
        generatedCode == NoCode && !showCodeEditor && !showPreview && !isWebsiteLive
        && !showImprovementSection && projectTitle == ""
    {
      if chat in sessions && chat.id != current.id {
        SwitchKeepsTarget(sessions, current, chat);
      }
      var has := chat.generatedCode.Some?;
      var code := if has then chat.generatedCode.value else NoCode;
      var title := if has && chat.projectTitle.Some? then chat.projectTitle.value else "";
      sessions, current, generatedCode, currentlyGenerating, projectTitle, isWebsiteLive, defaultViewMode,
        showCodeEditor, showPreview, showChatManagement, showImprovementSection :=
        SwitchArchive(sessions, current), chat, code, None, title, has, CodeView,
        has, has && showPreview, false, has;
    }

    /** `handleSendMessage` up to its `await`: the user message is appended at once, the
        chat is named after its first message, and generation starts. */
    method BeginSend(message: string, now: nat) returns (ctx: SendContext)
      modifies this`current, this`isGenerating, this`isWebsiteLive
      ensures ctx == SendContext(old(current), Message(User, message, now, false))
      ensures current.messages == old(current.messages) + [ctx.user]
      ensures current.title == if old(current.messages) == [] then FirstMessageTitle(message) else old(current.title)
      ensures current == old(current).(messages := current.messages, title := current.title)
      ensures isGenerating && !isWebsiteLive
    {
      var user := Message(User, message, now, false);
      ctx := SendContext(current, user);
      var title := if current.messages == [] then FirstMessageTitle(message) else current.title;
      current, isGenerating, isWebsiteLive := current.(messages := current.messages + [user], title := title), true, false;
    }

    /** `handleSendMessage` after its `await`. On success the chat is rebuilt from the
        snapshot taken at the call, so the title set by `BeginSend` is lost, and the reply is
        parsed, its title taken from the message that was sent; on failure the user message
        stays and nothing is added. Either way
        generation is over before the animation has even been started. */
    method CompleteSend(ctx: SendContext, result: Option<string>, now: nat)
      modifies this`current, this`isGenerating, this`projectTitle, this`showCodeEditor, this`pendingTyping
      ensures !isGenerating
      ensures result.None? ==>
        current == old(current) && pendingTyping == old(pendingTyping)
        && projectTitle == old(projectTitle) && showCodeEditor == old(showCodeEditor)
      ensures result.Some? ==>
        var chat := ctx.snapshot.(messages := ctx.snapshot.messages
          + [ctx.user, Message(Assistant, result.value, now, true)]);
        var code := ParseCode(result.value);
        && projectTitle == ExtractTitle(ctx.user.content)
        && current.title == ctx.snapshot.title
        && current.messages == chat.messages
        && (HasCode(code) ==> current == chat.(generatedCode := Some(code), projectTitle := Some(projectTitle))
                              && showCodeEditor && pendingTyping == Some(code))
        && (!HasCode(code) ==> current == chat && pendingTyping == old(pendingTyping)
                               && showCodeEditor == old(showCodeEditor))
    {
      if result.Some? {
        var assistant := Message(Assistant, result.value, now, true);
        var chat := ctx.snapshot.(messages := ctx.snapshot.messages + [ctx.user, assistant]);
        current := chat;
        ParseAndSetCode(result.value, ctx.user.content, chat);
      }
      isGenerating := false;
    }

    /** `parseAndSetCode`: the title always comes from the prompt; only when some code was
        found is the editor opened, the code and title saved in the session, and the animation
        scheduled. */
    method ParseAndSetCode(response: string, prompt: string, chat: ChatSession)
      modifies this`projectTitle, this`showCodeEditor, this`current, this`pendingTyping
      ensures projectTitle == ExtractTitle(prompt)
      ensures var code := ParseCode(response);
        && (HasCode(code) ==>
              showCodeEditor && pendingTyping == Some(code)
              && current == chat.(generatedCode := Some(code), projectTitle := Some(projectTitle)))
        && (!HasCode(code) ==>
              showCodeEditor == old(showCodeEditor) && pendingTyping == old(pendingTyping)
              && current == old(current))
    {
      var title := ExtractTitle(prompt);
      var code := ParseCode(response);
      if HasCode(code) {
        projectTitle, showCodeEditor, current, pendingTyping :=
          title, true, chat.(generatedCode := Some(code), projectTitle := Some(title)), Some(code);
      } else {
        projectTitle := title;
      }
    }

    /** `handleSuggestImprovement` up to its `await`: generation starts, the editor goes to
        the code view, and the prompt is composed from the feedback, the last user message
        and the code on screen. */
    method BeginImprove(feedback: string) returns (ctx: ImproveContext)
      modifies this`isGenerating, this`isWebsiteLive, this`defaultViewMode
      ensures ctx.snapshot == current
      ensures ctx.prompt == ImprovementPrompt(feedback, LastUserPrompt(current.messages), generatedCode)
      ensures isGenerating && !isWebsiteLive && defaultViewMode == CodeView
    {
      isGenerating, isWebsiteLive, defaultViewMode := true, false, CodeView;
      ctx := ImproveContext(current, ImprovementPrompt(feedback, LastUserPrompt(current.messages), generatedCode));
    }

    /** `handleSuggestImprovement` after its `await`. Only on success are the feedback (not
        the composed prompt) and the reply appended, together; the reply is parsed with the
        composed prompt as the title source, and the improvement panel closes afterwards. On
        failure nothing but the generating flag changes. */
    method CompleteImprove(ctx: ImproveContext, feedback: string, result: Option<string>, now: nat)
      modifies this`current, this`isGenerating, this`projectTitle, this`showCodeEditor, this`pendingTyping
      modifies this`showImprovementSection
      ensures !isGenerating
      ensures result.None? ==>
        current == old(current) && pendingTyping == old(pendingTyping) && projectTitle == old(projectTitle)
        && showImprovementSection == old(showImprovementSection) && showCodeEditor == old(showCodeEditor)
      ensures result.Some? ==>
        var chat := ctx.snapshot.(messages := ctx.snapshot.messages
          + [Message(User, feedback, now, false), Message(Assistant, result.value, now, true)]);
        var code := ParseCode(result.value);
        && current.messages == chat.messages
        && projectTitle == ExtractTitle(ctx.prompt)
        && showCodeEditor && !showImprovementSection
        && (HasCode(code) ==> current == chat.(generatedCode := Some(code), projectTitle := Some(projectTitle))
                              && pendingTyping == Some(code))
        && (!HasCode(code) ==> current == chat && pendingTyping == old(pendingTyping))
    {
      if result.Some? {
        var user := Message(User, feedback, now, false);
        var assistant := Message(Assistant, result.value, now, true);
        var chat := ctx.snapshot.(messages := ctx.snapshot.messages + [user, assistant]);
        current, showCodeEditor := chat, true;
        ParseAndSetCode(result.value, ctx.prompt, chat);
        showImprovementSection := false;
      }
      isGenerating := false;
    }

    // -------------------------------------------------------------------------------------
    // The animation

    /** The 2000 ms timer set by `ParseAndSetCode` fires: `simulateCodeGeneration` starts,
        up to its first `await`. */
    method StartTyping()
      requires pendingTyping.Some? && !Running(animation)
      modifies this`generatedCode, this`activeTab, this`currentlyGenerating, this`isWebsiteLive
      modifies this`defaultViewMode, this`pendingTyping, this`animation, this`typingTarget
      ensures typingTarget == old(pendingTyping.value) && pendingTyping == None
      ensures animation == Start(typingTarget)
      ensures Display() == StartEffect(typingTarget, old(Display()))
      ensures TypingShown()
    {
      var target := pendingTyping.value;
      StartShown(target, Display());
      var scr := StartEffect(target, Display());
      generatedCode, activeTab, currentlyGenerating, isWebsiteLive, defaultViewMode,
        pendingTyping, animation, typingTarget :=
        scr.code, scr.tab, scr.generating, scr.live, scr.mode, None, Start(target), target;
    }

    /** An animation timer fires: one step of `simulateCodeGeneration`/`typeCode`. */
    method TypingStep()
      requires Running(animation) && Reachable(typingTarget, animation)
      modifies this`generatedCode, this`activeTab, this`currentlyGenerating, this`isWebsiteLive
      modifies this`defaultViewMode, this`animation
      ensures animation == Next(typingTarget, old(animation))
      ensures Display() == Effect(typingTarget, old(animation), old(Display()))
      ensures Reachable(typingTarget, animation)
      ensures old(TypingShown()) ==> TypingShown()
    {
      NextReachable(typingTarget, animation);
      if TypingShown() {
        StepShown(typingTarget, animation, Display());
      }
      var scr := Effect(typingTarget, animation, Display());
      generatedCode, activeTab, currentlyGenerating, isWebsiteLive, defaultViewMode, animation :=
        scr.code, scr.tab, scr.generating, scr.live, scr.mode, Next(typingTarget, animation);
    }

    /** Every remaining timer of an undisturbed animation fires in turn: the site ends live in
        the preview, with every non-empty section shown in full plus a trailing newline. */
    method RunTyping()
      requires TypingShown()
      modifies this`generatedCode, this`activeTab, this`currentlyGenerating, this`isWebsiteLive
      modifies this`defaultViewMode, this`animation
      ensures animation == Finished
      ensures generatedCode == Code(Done(typingTarget.html), Done(typingTarget.css), Done(typingTarget.js))
      ensures old(Running(animation)) ==> isWebsiteLive && defaultViewMode == PreviewView
    {
      var started := Running(animation);
      while Running(animation)
        invariant TypingShown()
        invariant started && animation.Finished? ==> isWebsiteLive && defaultViewMode == PreviewView
        decreases Remaining(typingTarget, animation)
      {
        NextRemaining(typingTarget, animation);
        LiveOnlyAtEnd(typingTarget, animation, Display());
        TypingStep();
      }
      FinishedShown(typingTarget);
    }
  }
}
