/** The code editor panel: which section the active tab shows, the copy button, the
    has-code markers on the tabs, and the switch between the code view and the live preview. */
module CodeEditor {
  import opened Text
  import opened CodeModel
  import opened PreviewDocument

  /** `getActiveCode`: the section the tab id names, and nothing for any other tab id. */
  function ActiveCode(code: Code, activeTab: string): string {
    if activeTab == "html" then code.html
    else if activeTab == "css" then code.css
    else if activeTab == "js" then code.js
    else ""
  }

  /** The tab of a section shows that section, and a tab id naming no section shows nothing. */
  lemma {:induction false} ActiveCodeSpec(code: Code, activeTab: string)
    ensures forall s :: activeTab == SectionName(s) ==> ActiveCode(code, activeTab) == Field(code, s)
    ensures (forall s :: activeTab != SectionName(s)) ==> ActiveCode(code, activeTab) == ""
  {
    assert SectionName(Html) == "html" && SectionName(Css) == "css" && SectionName(Js) == "js";
  }

  /** The tabs, in the order they are drawn. */
  const Tabs := [Html, Css, Js]

  /** The has-code marker of each tab, in tab order. */
  function TabMarkers(code: Code): seq<bool> {
    [code.html != "", code.css != "", code.js != ""]
  }

  /** A tab carries the marker exactly when its section holds code, and some tab carries one
      exactly when the code as a whole counts as present. */
  lemma {:induction false} TabMarkersIff(code: Code)
    ensures |TabMarkers(code)| == |Tabs|
    ensures forall i :: 0 <= i < |Tabs| ==> (TabMarkers(code)[i] <==> Field(code, Tabs[i]) != "")
    ensures (exists i :: 0 <= i < |Tabs| && TabMarkers(code)[i]) <==> HasCode(code)
  {
    if code.html != "" { assert TabMarkers(code)[0]; }
    if code.css != "" { assert TabMarkers(code)[1]; }
    if code.js != "" { assert TabMarkers(code)[2]; }
  }

  /** The copy button is disabled when the active tab shows nothing. */
  predicate CopyDisabled(code: Code, activeTab: string) {
    ActiveCode(code, activeTab) == ""
  }

  /** A click on the copy button: what goes to the clipboard, if anything. */
  function CopyClick(code: Code, activeTab: string): Option<string> {
    if CopyDisabled(code, activeTab) then None else Some(ActiveCode(code, activeTab))
  }

  /** On a section's tab the copy button copies exactly that section, and does nothing
      exactly when the section is empty; on any other tab it never copies. */
  lemma {:induction false} CopyClickSpec(code: Code, s: Section, activeTab: string)
    ensures CopyClick(code, SectionName(s)) == if Field(code, s) == "" then None else Some(Field(code, s))
    ensures (forall t :: activeTab != SectionName(t)) ==> CopyClick(code, activeTab) == None
  {
    ActiveCodeSpec(code, SectionName(s));
    ActiveCodeSpec(code, activeTab);
  }

  /** The preview button is disabled while there is no document. */
  predicate PreviewDisabled(combinedCode: string) {
    combinedCode == ""
  }

  /** What the content area holds. */
  datatype Pane = CodePane(text: string) | Waiting | Frame(document: string)

  /** The content area: the active section in the code view; in the preview, the document in
      a frame once there is a document and the site is live, and the waiting notice before. */
  function Content(viewMode: ViewMode, code: Code, activeTab: string,
                   combinedCode: string, isWebsiteLive: bool): Pane {
    match viewMode
    case CodeView => CodePane(ActiveCode(code, activeTab))
    case PreviewView =>
      if combinedCode == "" || !isWebsiteLive then Waiting else Frame(combinedCode)
  }

  /** The frame shows exactly when the preview is selected, there is a document and the site
      is live, and then it shows that document. */
  lemma {:induction false} FrameIff(viewMode: ViewMode, code: Code, activeTab: string,
                                    combinedCode: string, isWebsiteLive: bool)
    ensures var c := Content(viewMode, code, activeTab, combinedCode, isWebsiteLive);
      && (c.Frame? <==> viewMode == PreviewView && combinedCode != "" && isWebsiteLive)
      && (c.Frame? ==> c.document == combinedCode)
      && (c.CodePane? <==> viewMode == CodeView)
  {
  }

  /** The page always hands over the assembled document, which is never empty: the preview
      button is never disabled and the frame waits for nothing but the live flag. */
  lemma {:induction false} PageDocumentGate(viewMode: ViewMode, code: Code, activeTab: string,
                                            title: string, isWebsiteLive: bool)
    ensures !PreviewDisabled(CombinedCode(title, code))
    ensures Content(viewMode, code, activeTab, CombinedCode(title, code), isWebsiteLive).Frame?
      <==> viewMode == PreviewView && isWebsiteLive
  {
    CombinedCodeNonEmpty(title, code);
  }

  /** The editor's own state: the selected view and the `defaultViewMode` prop it last saw. */
  class EditorView {
    var viewMode: ViewMode
    var defaultViewMode: ViewMode

    /** The view starts as the default the page asks for. */
    constructor(defaultMode: ViewMode)
      ensures viewMode == defaultMode && defaultViewMode == defaultMode
    {
      viewMode, defaultViewMode := defaultMode, defaultMode;
    }

    /** A render with the given `defaultViewMode`: the effect runs, and resets the view, only
        when that prop differs from the one of the previous render. */
    method Render(defaultMode: ViewMode)
      modifies this
      ensures defaultViewMode == defaultMode
      ensures defaultMode != old(defaultViewMode) ==> viewMode == defaultMode
      ensures defaultMode == old(defaultViewMode) ==> viewMode == old(viewMode)
    {
      if defaultMode != defaultViewMode {
        viewMode, defaultViewMode := defaultMode, defaultMode;
      }
    }

    /** The code button. */
    method SelectCode()
      modifies this`viewMode
      ensures viewMode == CodeView
    {
      viewMode := CodeView;
    }

    /** The preview button, which a disabled button ignores. */
    method SelectPreview(combinedCode: string)
      modifies this`viewMode
      ensures viewMode == if PreviewDisabled(combinedCode) then old(viewMode) else PreviewView
    {
      if !PreviewDisabled(combinedCode) {
        viewMode := PreviewView;
      }
    }
  }
}
