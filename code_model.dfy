/** The generated-code record, the transcript entry, and the names shared by the page, the
    editor and the chat view. */
module CodeModel {

  /** The three code sections, in the order the animation visits them. */
  datatype Section = Html | Css | Js

  /** The `'html' | 'css' | 'js'` string the source uses for a section, as a tab id and as the
      "currently generating" marker. */
  function SectionName(s: Section): string {
    match s
    case Html => "html"
    case Css => "css"
    case Js => "js"
  }

  /** Distinct sections have distinct ids, so a tab id names exactly one section. */
  lemma SectionNamesDistinct(s: Section, t: Section)
    ensures SectionName(s) == SectionName(t) ==> s == t
  {
  }

  /** The position of a section in tab order, which is also the order the animation visits
      them in. */
  function Rank(s: Section): nat {
    match s
    case Html => 0
    case Css => 1
    case Js => 2
  }

  /** `{ html, css, js }`. */
  datatype Code = Code(html: string, css: string, js: string)

  const NoCode := Code("", "", "")

  function Field(code: Code, s: Section): string {
    match s
    case Html => code.html
    case Css => code.css
    case Js => code.js
  }

  /** `{ ...code, [s]: v }`. */
  function WithField(code: Code, s: Section, v: string): (r: Code)
    ensures Field(r, s) == v
    ensures forall t :: t != s ==> Field(r, t) == Field(code, t)
  {
    match s
    case Html => code.(html := v)
    case Css => code.(css := v)
    case Js => code.(js := v)
  }

  /** `html || css || js`: at least one section holds text. */
  predicate HasCode(code: Code) {
    code.html != "" || code.css != "" || code.js != ""
  }

  datatype Role = User | Assistant

  /** A transcript entry; an absent `isStreaming` is `false`. */
  datatype Message = Message(role: Role, content: string, timestamp: nat, isStreaming: bool)

  /** `'code' | 'preview'`. */
  datatype ViewMode = CodeView | PreviewView
}
