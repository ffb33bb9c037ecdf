/** The typing animation of generated code: the buffer is reset, then the non-empty sections
    are typed one line per timer tick in the order html, css, js, with a pause after html
    and css, and the site is marked live at the end. Each timer expiry is one step. */
module CodeTyping {
  import opened Text
  import opened CodeModel

  /** Where an animation is waiting. `Typing(s, k)`: `k` lines of section `s` are written and
      the per-line timer is running. `Paused(s)`: section `s` is finished and the pause
      before the next section is running. `Finished`: the site has been marked live. */
  datatype Pc = Idle | Typing(section: Section, lines: nat) | Paused(section: Section) | Finished

  /** The part of the page the animation drives: the visible code buffer, the active tab, the
      "currently generating" pointer, the live flag and the editor's default view mode. */
  datatype Screen = Screen(code: Code, tab: Section, generating: Option<Section>,
                           live: bool, mode: ViewMode)

  /** A timer is pending, so there is a next step. */
  predicate Running(pc: Pc) {
    pc.Typing? || pc.Paused?
  }

  /** The first section of rank `r` or later whose content is non-empty: the next of the
      three `if (code.…)` tests that passes. */
  function NextSection(target: Code, r: nat): (res: Option<Section>)
    ensures res.Some? ==> Rank(res.value) >= r && Field(target, res.value) != ""
    ensures res.Some? ==> forall t :: r <= Rank(t) < Rank(res.value) ==> Field(target, t) == ""
    ensures res.None? ==> forall t :: r <= Rank(t) ==> Field(target, t) == ""
  {
    if r == 0 && target.html != "" then Some(Html)
    else if r <= 1 && target.css != "" then Some(Css)
    else if r <= 2 && target.js != "" then Some(Js)
    else None
  }

  /** What the buffer holds after `k` lines of `c` have been typed. */
  function Prefix(c: string, k: nat): string
    requires k <= |Lines(c)|
  {
    JoinLines(Lines(c)[..k])
  }

  /** What the buffer holds once a section is fully typed: every line followed by a newline,
      which is the content with one newline added, or nothing for an empty section. */
  function Done(c: string): string {
    if c == "" then "" else c + "\n"
  }

  /** A position an animation of `target` can reach. */
  predicate Reachable(target: Code, pc: Pc) {
    match pc
    case Idle => true
    case Typing(s, k) => Field(target, s) != "" && 1 <= k <= |Lines(Field(target, s))|
    case Paused(s) => s != Js
    case Finished => true
  }

  /** Marking the site live also switches the editor to the preview. */
  function GoLive(scr: Screen): (r: Screen)
    ensures r.live && r.mode == PreviewView
    ensures r.code == scr.code && r.tab == scr.tab && r.generating == scr.generating
  {
    scr.(live := true, mode := PreviewView)
  }

  /** Moving on to the first non-empty section of rank `r` or later: its tab is selected,
      the pointer is set to it and its first line is written; with none left the site goes
      live. */
  function Enter(target: Code, r: nat): Pc {
    match NextSection(target, r)
    case None => Finished
    case Some(s) => Typing(s, 1)
  }

  function EnterEffect(target: Code, r: nat, scr: Screen): Screen {
    match NextSection(target, r)
    case None => GoLive(scr)
    case Some(s) =>
      scr.(tab := s, generating := Some(s), code := WithField(scr.code, s, Prefix(Field(target, s), 1)))
  }

  /** The position right after the animation starts. */
  function Start(target: Code): Pc {
    Enter(target, 0)
  }

  /** The start of an animation: the buffer is emptied, the html tab is selected, and the first
      non-empty section is entered. */
  function StartEffect(target: Code, scr: Screen): Screen {
    EnterEffect(target, 0, scr.(code := NoCode, tab := Html))
  }

  /** The position after the pending timer fires. */
  function Next(target: Code, pc: Pc): Pc
    requires Running(pc)
  {
    match pc
    case Typing(s, k) =>
      if k < |Lines(Field(target, s))| then Typing(s, k + 1)
      else if s == Js then Finished
      else Paused(s)
    case Paused(s) => Enter(target, Rank(s) + 1)
  }

  /** What the step from `pc` does to the screen: write the next line, or clear the
      pointer at the end of a section (going live after js), or enter the next section
      after a pause. */
  function Effect(target: Code, pc: Pc, scr: Screen): Screen
    requires Reachable(target, pc) && Running(pc)
  {
    match pc
    case Typing(s, k) =>
      var c := Field(target, s);
      if k < |Lines(c)| then scr.(code := WithField(scr.code, s, Prefix(c, k + 1)))
      else if s == Js then GoLive(scr.(generating := None))
      else scr.(generating := None)
    case Paused(s) => EnterEffect(target, Rank(s) + 1, scr)
  }

  /** The buffer an animation shows at each position: finished sections in full, the section
      being typed up to its current line, later sections empty. */
  function ShownField(target: Code, pc: Pc, t: Section): string {
    match pc
    case Idle => ""
    case Typing(s, k) =>
      if Rank(t) < Rank(s) then Done(Field(target, t))
      else if t == s && k <= |Lines(Field(target, s))| then Prefix(Field(target, s), k)
      else ""
    case Paused(s) => if Rank(t) <= Rank(s) then Done(Field(target, t)) else ""
    case Finished => Done(Field(target, t))
  }

  function Shown(target: Code, pc: Pc): (r: Code)
    ensures forall t :: Field(r, t) == ShownField(target, pc, t)
  {
    Code(ShownField(target, pc, Html), ShownField(target, pc, Css), ShownField(target, pc, Js))
  }

  /** Steps left until the site is live. */
  function Remaining(target: Code, pc: Pc): nat
    decreases 3 - Rank(if pc.Typing? || pc.Paused? then pc.section else Js), pc.Typing?
  {
    match pc
    case Idle => 0
    case Finished => 0
    case Typing(s, k) =>
      var n := |Lines(Field(target, s))|;
      (if k <= n then n - k else 0) + 1 + (if s == Js then 0 else Remaining(target, Paused(s)))
    case Paused(s) =>
      1 + match NextSection(target, Rank(s) + 1)
          case None => 0
          case Some(u) => Remaining(target, Typing(u, 1))
  }

  /** `n` timer expiries in a row, stopping once no timer is pending. */
  function Run(target: Code, pc: Pc, n: nat): Pc
    decreases n
  {
    if n == 0 || !Running(pc) then pc else Run(target, Next(target, pc), n - 1)
  }

  // -------------------------------------------------------------------------------------
  // Properties

  /** Starting shows an empty buffer except for the first line of the first non-empty
      section, at a reachable position, with the pointer and the tab on that section. */
  lemma StartShown(target: Code, scr: Screen)
    ensures Reachable(target, Start(target))
    ensures StartEffect(target, scr).code == Shown(target, Start(target))
    ensures Start(target).Typing? ==>
      StartEffect(target, scr).generating == Some(Start(target).section)
      && StartEffect(target, scr).tab == Start(target).section
  {
    EnterShown(target, 0, scr.(code := NoCode, tab := Html));
  }

  lemma {:induction false} EnterShown(target: Code, r: nat, scr: Screen)
    requires r <= 3
    requires forall t :: Field(scr.code, t) == (if Rank(t) < r then Done(Field(target, t)) else "")
    ensures Reachable(target, Enter(target, r))
    ensures EnterEffect(target, r, scr).code == Shown(target, Enter(target, r))
    ensures Enter(target, r).Typing? ==>
      EnterEffect(target, r, scr).generating == Some(Enter(target, r).section)
      && EnterEffect(target, r, scr).tab == Enter(target, r).section
  {
    match NextSection(target, r)
    case None =>
    case Some(s) =>
      var c := Field(target, s);
      var r' := EnterEffect(target, r, scr).code;
      forall t ensures Field(r', t) == ShownField(target, Typing(s, 1), t) {
        if Rank(t) < r {
        } else if Rank(t) < Rank(s) {
          assert Field(target, t) == "";
        }
      }
  }

  /** The invariant of a running animation: if the buffer shows what the current position
      says, after the step it shows what the next position says. */
  lemma {:induction false} StepShown(target: Code, pc: Pc, scr: Screen)
    requires Reachable(target, pc) && Running(pc)
    requires scr.code == Shown(target, pc)
    ensures Reachable(target, Next(target, pc))
    ensures Effect(target, pc, scr).code == Shown(target, Next(target, pc))
  {
    match pc
    case Typing(s, k) =>
      var c := Field(target, s);
      if k < |Lines(c)| {
        var r := Effect(target, pc, scr).code;
        forall t ensures Field(r, t) == ShownField(target, Typing(s, k + 1), t) {
        }
      } else {
        TypedPrefix(c, k);
        var nx := Next(target, pc);
        forall t ensures Field(scr.code, t) == ShownField(target, nx, t) {
        }
      }
    case Paused(s) =>
      EnterShown(target, Rank(s) + 1, scr);
  }

  /** The pointer is on the section being typed and nowhere else, and the tab shows it. */
  lemma {:induction false} StepPointer(target: Code, pc: Pc, scr: Screen)
    requires Reachable(target, pc) && Running(pc)
    requires pc.Typing? ==> scr.generating == Some(pc.section) && scr.tab == pc.section
    ensures var n := Next(target, pc); var e := Effect(target, pc, scr);
      && (n.Typing? ==> e.generating == Some(n.section) && e.tab == n.section)
      && (n.Paused? ==> e.generating == None && e.tab == n.section)
      && (n.Finished? && pc.Typing? ==> e.generating == None)
  {
    if pc.Paused? {
      EnterShown(target, Rank(pc.section) + 1, scr.(code := Shown(target, pc)));
    }
  }

  /** The site goes live, and the editor turns to the preview, exactly at the step that
      ends the animation; no earlier step touches either. */
  lemma {:induction false} LiveOnlyAtEnd(target: Code, pc: Pc, scr: Screen)
    requires Reachable(target, pc) && Running(pc)
    ensures Next(target, pc).Finished? ==> Effect(target, pc, scr).live && Effect(target, pc, scr).mode == PreviewView
    ensures !Next(target, pc).Finished? ==>
      Effect(target, pc, scr).live == scr.live && Effect(target, pc, scr).mode == scr.mode
  {
  }

  /** A line step changes only the field being typed, and only by adding the next line and
      its newline at the end. */
  lemma {:induction false} LineStepGrows(target: Code, s: Section, k: nat, scr: Screen)
    requires Reachable(target, Typing(s, k)) && k < |Lines(Field(target, s))|
    requires scr.code == Shown(target, Typing(s, k))
    ensures var c := Field(target, s); var after := Effect(target, Typing(s, k), scr).code;
      && Field(after, s) == Field(scr.code, s) + Lines(c)[k] + "\n"
      && |Field(scr.code, s)| < |Field(after, s)|
      && forall t :: t != s ==> Field(after, t) == Field(scr.code, t)
  {
    TypeOneMore(Lines(Field(target, s)), k);
  }

  /** Whatever the position, every field shown is a prefix of its content plus a newline. */
  lemma {:induction false} ShownIsPrefix(target: Code, pc: Pc, t: Section)
    requires Reachable(target, pc) && !pc.Idle?
    ensures Field(Shown(target, pc), t) <= Field(target, t) + "\n"
  {
    var c := Field(target, t);
    JoinLinesOfLines(c);
    if pc.Typing? && t == pc.section {
      TypedPrefix(c, pc.lines);
    }
  }

  /** At the end every non-empty section is shown in full with one extra trailing newline,
      and every empty one stays empty. */
  lemma FinishedShown(target: Code)
    ensures Shown(target, Finished) == Code(Done(target.html), Done(target.css), Done(target.js))
  {
  }

  /** Each step takes exactly one step off the count. */
  lemma {:induction false} NextRemaining(target: Code, pc: Pc)
    requires Reachable(target, pc) && Running(pc)
    ensures Remaining(target, pc) >= 1
    ensures Remaining(target, Next(target, pc)) == Remaining(target, pc) - 1
  {
  }

  /** A step never leaves the reachable positions. */
  lemma {:induction false} NextReachable(target: Code, pc: Pc)
    requires Reachable(target, pc) && Running(pc)
    ensures Reachable(target, Next(target, pc))
  {
    if pc.Paused? {
      var r := Rank(pc.section) + 1;
      assert NextSection(target, r).Some? ==> |Lines(Field(target, NextSection(target, r).value))| >= 1;
    }
  }

  /** From any reachable position, the animation ends after `Remaining` steps. */
  lemma {:induction false} RunFinishes(target: Code, pc: Pc)
    requires Reachable(target, pc) && !pc.Idle?
    ensures Run(target, pc, Remaining(target, pc)) == Finished
    decreases Remaining(target, pc)
  {
    if Running(pc) {
      NextRemaining(target, pc);
      NextReachable(target, pc);
      RunFinishes(target, Next(target, pc));
    }
  }

  /** A section is typed in as many writes as it has lines, that is one more than its
      newlines: from its first line, `j` more steps give `1 + j` lines for every `j` up to
      that count. */
  lemma {:induction false} TypingSteps(target: Code, s: Section, k: nat, j: nat)
    requires Reachable(target, Typing(s, k)) && k + j <= |Lines(Field(target, s))|
    ensures Run(target, Typing(s, k), j) == Typing(s, k + j)
    decreases j
  {
    if j > 0 {
      TypingSteps(target, s, k + 1, j - 1);
    }
  }

  lemma {:induction false} SectionWrites(target: Code, s: Section)
    requires Field(target, s) != ""
    ensures var n := CountNewlines(Field(target, s)) + 1;
      && Run(target, Typing(s, 1), n - 1) == Typing(s, n)
      && !Next(target, Typing(s, n)).Typing?
      && ShownField(target, Typing(s, n), s) == Field(target, s) + "\n"
  {
    var c := Field(target, s);
    LinesCount(c);
    TypingSteps(target, s, 1, |Lines(c)| - 1);
    TypedPrefix(c, |Lines(c)|);
  }
}
