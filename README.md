# A verified model of the website-builder chat front end

The application is a React page where a user describes a website and sends the description
to a text-generation service. The reply comes back as free text with `EXPLANATION:`,
`HTML:`, `CSS:` and `JS:` sections. From it the page does the following:

- It pulls the three code fields out of the reply.
- It derives a project title from the user's prompt.
- It types the code into an editor line by line, then makes the site "live" in a preview frame.

Chats are kept as sessions. The current session can be archived, switched or deleted. An
improvement panel sends feedback on the current code. Two voice components turn speech
recognition results into a message or a name, and a keyboard hook drives them.

This project models the following in Dafny:

- The main page (`src/pages/Index.tsx`).
- The chat view (`src/components/ChatSection.tsx`).
- The code editor (`src/components/CodeEditor.tsx`).
- The improvement panel (`src/components/ImprovementSection.tsx`).
- The voice shortcut hook (`src/hooks/use-voice-shortcuts.ts`).
- The two voice inputs (`src/components/VoiceInput.tsx` and `src/components/VoiceNameInput.tsx`).

Each module follows one source file:

| file | module | models |
|---|---|---|
| text.dfy | `Text` | JavaScript `trim`, `\s`, `\w`, ASCII case folding, `split('\n')` |
| code_model.dfy | `CodeModel` | the `{html, css, js}` record, messages, view modes |
| response_parser.dfy | `ResponseParser` | the three field expressions and the title expression of `parseAndSetCode`, as explicit leftmost searches |
| preview_document.dfy | `PreviewDocument` | `getCombinedCode` |
| code_typing.dfy | `CodeTyping` | `simulateCodeGeneration` and `typeCode` as a step machine, one step per timer expiry |
| improvement_text.dfy | `ImprovementText` | the improvement prompt |
| index_page.dfy | `IndexPage` | the page state as the class `Page`, with sessions and send and improve |
| chat_section.dfy | `ChatSection` | `formatMessageContent`, `StreamingText`, the message box, the code buttons |
| code_editor.dfy | `CodeEditor` | the active tab, copy, tab markers, the preview pane, view-mode sync |
| improvement_section.dfy | `ImprovementSection` | the feedback box and its submit guard |
| voice_shortcuts.dfy | `VoiceShortcuts` | the key-down decision table and the listening ref |
| speech_results.dfy | `SpeechResults` | the final/interim partition loop shared by both voice inputs |
| voice_input.dfy | `VoiceInput` | the chat-box microphone |
| voice_name_input.dfy | `VoiceNameInput` | the name-capture microphone |

Some conventions:

- React state becomes class fields.
- Every `await` splits a handler in two, for example `BeginSend` and `CompleteSend`. What the handler's closure captured goes into a context value.
- The service call is a parameter: a reply text or a failure.
- Every timer expiry is a method call.
- Where the code does something a reader might not expect, the model follows the code and a lemma or a contract pins the behaviour down:
  - the archive is not deduplicated;
  - switching leaves the target in the archive;
  - deleting the current chat re-archives it;
  - the first-message title is lost on success;
  - `isGenerating` is cleared before the animation starts;
  - messages stay marked as streaming, so the code buttons never show;
  - the typed code ends with an extra newline;
  - the title of a first message always ends in `...`, even when the message is 30 characters or shorter (`src/pages/Index.tsx:381`);
  - the preview gate on an empty document never blocks, because the document is never empty (`CodeEditor.PageDocumentGate`).

## Model

| member | source | states |
|---|---|---|
| Text.Trim | src/pages/Index.tsx:460-462 | `String.prototype.trim`: the result neither starts nor ends with white space, and it is empty exactly when the input is all white space |
| Text.TrimIsSlice | src/pages/Index.tsx:460-462 | the trimmed text is a slice of the input with only white space cut on either side |
| Text.TrimIdempotent | src/components/VoiceInput.tsx:76 | trimming an already trimmed text changes nothing, so a trimmed message passes the send guard unchanged |
| Text.JoinLinesOfLines | src/pages/Index.tsx:515-525 | writing every line of `content.split('\n')` followed by a newline gives the content plus one trailing newline |
| Text.LinesCount | src/pages/Index.tsx:515 | the split yields one line more than there are newline characters |
| Text.TypedPrefix | src/pages/Index.tsx:518-523 | after any number of lines the accumulated text is a prefix of content plus newline, and equals it once every line is written |
| Text.TypeOneMore | src/pages/Index.tsx:519 | each step appends exactly the next line and a newline, so the text grows strictly |
| CodeModel.SectionNamesDistinct | src/pages/Index.tsx:514 | the ids `html`, `css` and `js` name the three sections one to one |
| CodeModel.WithField | src/pages/Index.tsx:520-523 | updating one field of the code record sets that field and leaves the other two unchanged |
| ResponseParser.FindFenceSound | src/pages/Index.tsx:456-458 | the fence search finds the first three-backtick run at or after its start, or reports that there is none |
| ResponseParser.TagLengthSound | src/pages/Index.tsx:456-458 | the optional language group takes the first tag, in alternation order, found after the fence ignoring case, and nothing when no tag is there |
| ResponseParser.CaptureAtSound | src/pages/Index.tsx:456-458 | a match tried at a position starts with the case-insensitive label, and its lazy capture stops at the first closing fence |
| ResponseParser.CaptureAtComplete | src/pages/Index.tsx:456-458 | the expression matches at a position exactly when the label, white space and an opening fence are there and another fence follows the opening and its tag |
| ResponseParser.MatchFromSound | src/pages/Index.tsx:456-458 | the search returns the match at the leftmost position where the expression matches, with no match before it; its capture holds no fence and is followed by one; no result means no position matches |
| ResponseParser.ExtractFieldSound | src/pages/Index.tsx:456-462 | a field is the trimmed capture of the leftmost match and never contains three backticks; it is `""` when the expression matches nowhere, whether the label is missing or no fenced block follows it |
| ResponseParser.ParseCodeSound | src/pages/Index.tsx:456-462 | no parsed field contains a fence; a field whose expression matches nowhere, in particular one whose label is missing, is empty whatever the other fields hold |
| ResponseParser.FieldRoundTrip | src/pages/Index.tsx:456-462 | a field written as label, white space, a fence, an accepted tag, a body and a fence, with no match of the expression before the label, is recovered as exactly the trimmed body |
| ResponseParser.FieldAfterPrefix | src/pages/Index.tsx:456-462 | the same recovery, for a reply known only through where each part sits |
| ResponseParser.WordPairAt | src/pages/Index.tsx:453 | `(\w+\s+\w+)` at a position yields a word, white space and a word found at that position, ending where the second run of word characters ends |
| ResponseParser.WordPairAtComplete | src/pages/Index.tsx:453 | the group matches at a position exactly when a word, white space and a word start there |
| ResponseParser.TitleFrom | src/pages/Index.tsx:453 | the lazy `.*?` then the word pair yields two words found at or after the position |
| ResponseParser.TitleFromLeftmost | src/pages/Index.tsx:453 | the lazy search takes the pair at the first position, reached without crossing a line terminator, where a pair starts, and yields nothing when there is none |
| ResponseParser.TitleAtIff | src/pages/Index.tsx:453 | after a `build` the search finds a pair exactly when a pair starts later on the same line |
| ResponseParser.TitleMatchLeftmost | src/pages/Index.tsx:453 | the title expression matches at the leftmost case-insensitive `build` after which the lazy search finds a pair, and yields that pair; with no such `build` it does not match |
| ResponseParser.TitleMatchesAt | src/pages/Index.tsx:453 | the leftmost position where the whole expression can match is the one the search uses |
| ResponseParser.TitleMatchesNowhere | src/pages/Index.tsx:453 | where the whole expression can match nowhere the search finds nothing |
| ResponseParser.ExtractTitleSound | src/pages/Index.tsx:453 | the title is `My Website` or two words of the prompt, and it is `My Website` when the prompt never says `build` |
| ResponseParser.ExtractTitleLeftmost | src/pages/Index.tsx:453 | the title is the first pair on the same line after the leftmost `build` that such a pair follows, and `My Website` when no `build` is so followed |
| ResponseParser.PairLayout | src/pages/Index.tsx:453 | a word, white space and a word laid out at a position, the second word ending the run of word characters, are exactly what the group takes there |
| ResponseParser.TitleAfterBuild | src/pages/Index.tsx:453 | a `build` with no earlier match, then white space on the same line, then a word, white space and a word: the title is exactly that pair |
| ResponseParser.ExampleSearch | src/pages/Index.tsx:453 | after `Build` followed by ` me a ` the lazy search skips the space and takes `me a`, stopping the second word at the next space |
| ResponseParser.TitleOfBuildMeA | src/pages/Index.tsx:453 | a prompt starting `Build me a ` is titled `me a`, whatever follows |
| ResponseParser.TitleExample | src/pages/Index.tsx:453 | the prompt `Build me a portfolio site` is titled `me a` |
| PreviewDocument.CombinedCode | src/pages/Index.tsx:585-603 | the document is as long as the fixed template plus the title and the three sections |
| PreviewDocument.CombinedCodeLayout | src/pages/Index.tsx:585-603 | the title, CSS, HTML and JS each sit at the offset the template fixes, so each can be read back from the document |
| PreviewDocument.CombinedCodeFrame | src/pages/Index.tsx:586-602 | the document starts with the doctype and ends with the closing html tag |
| PreviewDocument.CombinedCodeNonEmpty | src/pages/Index.tsx:585-603 | the document is never empty |
| CodeTyping.NextSection | src/pages/Index.tsx:487-507 | the next section typed is the first non-empty one in the order html, css, js at or after a rank; every section skipped is empty |
| CodeTyping.GoLive | src/pages/Index.tsx:509-510 | going live sets the live flag and the preview mode, and nothing else |
| CodeTyping.Shown | src/pages/Index.tsx:483-526 | the buffer at a position: finished sections in full, the current one up to its line, later ones empty |
| CodeTyping.StartShown | src/pages/Index.tsx:484-489 | starting empties the buffer, selects the html tab and enters the first non-empty section, with pointer and tab on it |
| CodeTyping.EnterShown | src/pages/Index.tsx:494-505 | entering the next non-empty section selects its tab, sets the pointer and writes its first line, or goes live when none is left |
| CodeTyping.StepShown | src/pages/Index.tsx:483-526 | each step keeps the buffer equal to what the new position says it shows |
| CodeTyping.StepPointer | src/pages/Index.tsx:488-506 | the pointer is set to a section exactly while it is being typed, is cleared after it, and the tab follows |
| CodeTyping.LiveOnlyAtEnd | src/pages/Index.tsx:509-510 | the site goes live and the view turns to the preview exactly at the step that ends the animation, never earlier |
| CodeTyping.LineStepGrows | src/pages/Index.tsx:518-523 | a line step changes only the field being typed, by appending the next line and a newline |
| CodeTyping.ShownIsPrefix | src/pages/Index.tsx:514-526 | at every position every shown field is a prefix of its content plus a newline |
| CodeTyping.FinishedShown | src/pages/Index.tsx:483-526 | at the end each non-empty section is shown in full with one extra trailing newline, and each empty one is empty |
| CodeTyping.NextRemaining | src/pages/Index.tsx:483-526 | each step takes exactly one off the number of steps left |
| CodeTyping.NextReachable | src/pages/Index.tsx:483-526 | a step never leaves the reachable positions |
| CodeTyping.RunFinishes | src/pages/Index.tsx:483-526 | from any reachable position the animation ends after the counted number of steps |
| CodeTyping.TypingSteps | src/pages/Index.tsx:518-525 | the line steps of a section advance one line each |
| CodeTyping.SectionWrites | src/pages/Index.tsx:515-525 | a section is typed in as many writes as it has lines, one more than its newlines |
| ImprovementText.PromptLayout | src/pages/Index.tsx:426-430 | the feedback, the last request and the three previous sections each sit in the improvement prompt at the offset its fixed text determines, and the prompt ends with the reply format |
| IndexPage.DecimalDigits | src/pages/Index.tsx:530 | `Date.now().toString()` is a non-empty string of digits without a leading zero |
| IndexPage.DecimalRoundTrip | src/pages/Index.tsx:530 | reading the id string back gives the millisecond count, so the string determines the count |
| IndexPage.DistinctTimesDistinctIds | src/pages/Index.tsx:530 | chats created at different milliseconds have different id strings |
| IndexPage.WithoutId | src/pages/Index.tsx:550 | the filter never lengthens the archive |
| IndexPage.WithoutIdMembers | src/pages/Index.tsx:550 | the filter keeps exactly the sessions with another id |
| IndexPage.WithoutIdCounts | src/pages/Index.tsx:550 | the filter keeps every other session as often as it occurred and drops every copy of the id |
| IndexPage.SwitchArchive | src/pages/Index.tsx:557 | after a switch the archive ends with the session switched away from |
| IndexPage.SwitchArchiveMembers | src/pages/Index.tsx:557 | after a switch the archive holds the old current session and every archived session with another id, nothing else |
| IndexPage.SwitchKeepsTarget | src/pages/Index.tsx:557-558 | the chat switched to stays in the archive |
| IndexPage.SwitchTwiceDuplicates | src/pages/Index.tsx:557-558 | switching to an archived chat and away again leaves both sessions in the archive, so the chat opened from it is now listed as well as current |
| IndexPage.CallResult | src/pages/Index.tsx:329-331 | the call fails when the API key is blank; otherwise it succeeds exactly when the reply has content, and yields that content |
| IndexPage.FirstMessageTitle | src/pages/Index.tsx:381 | the title is at most the first 30 characters followed by `...`, and a message of 30 characters or fewer gets `...` appended whole |
| IndexPage.FirstTitleIsNotDefault | src/pages/Index.tsx:381 | a first message always renames the chat away from `New Chat` |
| IndexPage.LastUserPrompt | src/pages/Index.tsx:426 | the last request is exactly the content of the last user message, even an empty one, and `""` when there is no user message |
| IndexPage.Page.constructor | src/pages/Index.tsx:43-60 | the initial state: chat `1` titled `New Chat`, an empty archive, no code, the html tab, the code view |
| IndexPage.Page.CreateNewChat | src/pages/Index.tsx:528-547 | the current session is appended to the archive without deduplication; a fresh `New Chat` replaces it; code, pointer, title, live flag and panels are cleared |
| IndexPage.Page.DeleteChat | src/pages/Index.tsx:549-554 | every archived copy of the id goes and, for another chat, nothing else changes; if it is the current chat, a new chat starts, the deleted session is appended back, and code, pointer, title, live flag, view mode and panels are cleared |
| IndexPage.Page.SwitchToChat | src/pages/Index.tsx:556-579 | the current session replaces its archived copies at the end; the target stays archived; code, title, editor and live flag are restored exactly when the target has code; the pointer is cleared |
| IndexPage.Page.BeginSend | src/pages/Index.tsx:371-385 | the user message is appended at once; the title becomes the first-message title only for an empty transcript; generation starts and the site is not live |
| IndexPage.Page.CompleteSend | src/pages/Index.tsx:387-416 | on success the chat is rebuilt from the pre-send snapshot plus the user and assistant messages, so the new title is lost, and the reply is parsed with the project title taken from the message sent; on failure the user message stays; generation is over either way |
| IndexPage.Page.ParseAndSetCode | src/pages/Index.tsx:452-481 | the title always comes from the prompt; only when some field is non-empty does the editor open, the session get the code and title, and the animation get scheduled |
| IndexPage.Page.BeginImprove | src/pages/Index.tsx:420-430 | generation starts, the view turns to code, and the prompt is composed from the feedback, the last user message and the code on screen |
| IndexPage.Page.CompleteImprove | src/pages/Index.tsx:431-449 | only on success are the feedback (not the prompt) and the reply appended together, the editor opened and the panel closed; on failure only the generating flag changes |
| IndexPage.Page.StartTyping | src/pages/Index.tsx:477-489 | the delayed animation starts from the empty buffer on the html tab, and the buffer shows what its position says |
| IndexPage.Page.TypingStep | src/pages/Index.tsx:483-526 | one timer expiry applies one step of the animation and keeps the buffer in step with its position |
| IndexPage.Page.RunTyping | src/pages/Index.tsx:483-526 | an undisturbed animation ends with every non-empty section shown in full plus a newline, the site live and the view on the preview |
| ChatSection.MarkerOfSlice | src/components/ChatSection.tsx:131 | a label found inside a slice is a label of the whole text |
| ChatSection.SplitFromConcat | src/components/ChatSection.tsx:131 | the pieces of the split put back together give the text |
| ChatSection.SplitFromCuts | src/components/ChatSection.tsx:131 | every piece after the first starts with a label |
| ChatSection.SplitFromPieces | src/components/ChatSection.tsx:131 | no piece holds a label after its first character, and no piece of a non-empty text is empty |
| ChatSection.SplitSound | src/components/ChatSection.tsx:131 | the split before every label gives the text back, cuts only before labels and leaves no label inside a piece |
| ChatSection.SplitSingle | src/components/ChatSection.tsx:131-133 | the text stays in one piece exactly when no label starts after its first character |
| ChatSection.FormatWholeIff | src/components/ChatSection.tsx:129-164 | the content is shown whole and unchanged exactly when no label starts after its first character, including content that begins with `EXPLANATION:` |
| ChatSection.NoExplanationFrom | src/components/ChatSection.tsx:133-156 | pieces cut from text without the explanation label show nothing |
| ChatSection.CodeOnlyShowsNothing | src/components/ChatSection.tsx:133-156 | a reply with code labels but no explanation label shows no text at all |
| ChatSection.FirstSectionExplains | src/components/ChatSection.tsx:133-156 | when only the first piece starts with the explanation label, its label-stripped trimmed text is all that is shown |
| ChatSection.ReplyShowsExplanation | src/components/ChatSection.tsx:133-156 | a reply in the requested format shows exactly its trimmed explanation |
| ChatSection.ButtonsIff | src/components/ChatSection.tsx:204-245 | a section's button shows under an assistant message exactly when the message is not marked streaming and the section holds code; buttons are distinct and in tab order |
| ChatSection.TypedOnlyLast | src/components/ChatSection.tsx:129-211 | a message is typed out exactly when it is the last one, from the assistant and marked streaming |
| ChatSection.StreamingText.constructor | src/components/ChatSection.tsx:32-35 | the display starts empty at index 0, not complete |
| ChatSection.StreamingText.SetText | src/components/ChatSection.tsx:38-45 | a different text resets the display to empty at index 0; the same text changes nothing |
| ChatSection.StreamingText.Tick | src/components/ChatSection.tsx:49-53 | one tick shows exactly the next character; the display stays the first `currentIndex` characters, never past the end |
| ChatSection.StreamingText.Finish | src/components/ChatSection.tsx:55-58 | once every character is shown the display completes and the callback fires once |
| ChatSection.StreamingText.Play | src/components/ChatSection.tsx:48-59 | a non-empty text ends fully shown and complete, with the callback fired once per text; an empty text shows nothing |
| ChatSection.CompleteIsFinal | src/components/ChatSection.tsx:49-58 | a complete display has nothing more due, so the callback cannot fire again for the same text |
| ChatSection.ChatInput.constructor | src/components/ChatSection.tsx:74 | the message box starts empty |
| ChatSection.ChatInput.Submit | src/components/ChatSection.tsx:114-120 | a non-blank input is sent trimmed and the box cleared unless generating; otherwise nothing happens |
| ChatSection.ChatInput.KeyDown | src/components/ChatSection.tsx:122-127 | Enter without Shift submits; Shift+Enter and other keys do nothing |
| CodeEditor.ActiveCodeSpec | src/components/CodeEditor.tsx:114-121 | a section's tab shows that section, and any other tab id shows `""` |
| CodeEditor.TabMarkersIff | src/components/CodeEditor.tsx:297-319 | a tab carries the has-code marker exactly when its section is non-empty, and some tab does exactly when there is code |
| CodeEditor.CopyClickSpec | src/components/CodeEditor.tsx:246-247 | the copy button copies exactly the active section and is disabled exactly when it is empty; on another tab it never copies |
| CodeEditor.FrameIff | src/components/CodeEditor.tsx:329-394 | the frame shows exactly when the preview is selected, the document is non-empty and the site is live, and then shows the document; the code view shows the active section |
| CodeEditor.PageDocumentGate | src/components/CodeEditor.tsx:217-351 | with the page's document the preview button is never disabled, and the frame waits only for the live flag |
| CodeEditor.EditorView.constructor | src/components/CodeEditor.tsx:38 | the view starts as the default the page asks for |
| CodeEditor.EditorView.Render | src/components/CodeEditor.tsx:41-43 | the view is reset to the default exactly when the default prop changed |
| CodeEditor.EditorView.SelectCode | src/components/CodeEditor.tsx:186-189 | the code button selects the code view |
| CodeEditor.EditorView.SelectPreview | src/components/CodeEditor.tsx:204-217 | the preview button selects the preview unless it is disabled by an empty document |
| ImprovementSection.ImprovementBox.constructor | src/components/ImprovementSection.tsx:18-19 | the box starts empty and not improving |
| ImprovementSection.ImprovementBox.Edit | src/components/ImprovementSection.tsx:79-94 | typing changes the text only while nothing is generated or improved |
| ImprovementSection.ImprovementBox.BeginSubmit | src/components/ImprovementSection.tsx:21-26 | blank text or a submission in progress makes submit a no-op; otherwise the trimmed text goes to the page and improving is set |
| ImprovementSection.ImprovementBox.EndSubmit | src/components/ImprovementSection.tsx:26-32 | the text is cleared only when the page's handler resolved; improving is dropped either way |
| ImprovementSection.ImprovementBox.Submit | src/components/ImprovementSection.tsx:21-33 | a submission sends exactly the trimmed non-blank text when not already improving, and ends not improving with the text cleared only on success |
| ImprovementSection.ImprovementBox.Click | src/components/ImprovementSection.tsx:104-106 | a click starts a submission exactly when the text is non-blank and nothing is generated or improved, sending the trimmed text |
| ImprovementSection.ImprovementBox.KeyDown | src/components/ImprovementSection.tsx:35-40 | Enter without Shift submits, and only while the textarea is enabled (nothing generated or improved); other keys do nothing; a submission only starts when the button would be enabled too |
| VoiceShortcuts.HandleKeyDownSpec | src/hooks/use-voice-shortcuts.ts:23-47 | no callback in text fields; Ctrl/Cmd+Shift+V toggles unless disabled; Space stops only while listening, whatever `disabled`; at most one callback per event |
| VoiceShortcuts.Shortcuts.constructor | src/hooks/use-voice-shortcuts.ts:16 | the ref starts as the listening flag |
| VoiceShortcuts.Shortcuts.Sync | src/hooks/use-voice-shortcuts.ts:18-20 | the ref mirrors the latest listening flag |
| VoiceShortcuts.Shortcuts.KeyDown | src/hooks/use-voice-shortcuts.ts:23-47 | the handler reads the ref: it decides as the table says, fires at most one callback, and starts only when not listening and not disabled |
| SpeechResults.Partition | src/components/VoiceInput.tsx:52-62 | the loop gives the final results' transcripts and the others', each in order, over the results from `resultIndex` on |
| SpeechResults.PartitionLength | src/components/VoiceInput.tsx:55-62 | every transcript goes to exactly one of the two texts |
| SpeechResults.AllFinal | src/components/VoiceInput.tsx:57-58 | when every result is final the final text is all transcripts and the interim text is empty |
| SpeechResults.TranscriptInOrder | src/components/VoiceInput.tsx:64-65 | when final results come first, final then interim is all transcripts in order |
| SpeechResults.TranscriptReordered | src/components/VoiceInput.tsx:64-65 | otherwise the display reorders them: an interim `a` before a final `b` shows as `ba` |
| VoiceInput.VoiceInput.constructor | src/components/VoiceInput.tsx:24-34 | not listening, no transcript, nothing scheduled |
| VoiceInput.VoiceInput.OnStart | src/components/VoiceInput.tsx:42-49 | listening starts with an empty transcript |
| VoiceInput.VoiceInput.OnResult | src/components/VoiceInput.tsx:51-80 | the transcript is final then interim text; the scheduled send is replaced by one for the final text, or dropped when it is blank |
| VoiceInput.VoiceInput.OnTimer | src/components/VoiceInput.tsx:74-78 | the scheduled send sends the trimmed final text unless blank or generating |
| VoiceInput.VoiceInput.OnError | src/components/VoiceInput.tsx:82-100 | listening stops and the transcript is cleared |
| VoiceInput.VoiceInput.OnEnd | src/components/VoiceInput.tsx:102-108 | listening stops, the transcript is cleared and the scheduled send is cancelled |
| VoiceInput.VoiceInput.GeneratingChanged | src/components/VoiceInput.tsx:119-127 | when `isGenerating` changes, the effect cleanup cancels the scheduled send, so no send is pending afterwards |
| VoiceInput.VoiceInput.StartListening | src/components/VoiceInput.tsx:150-163 | the recognizer starts exactly when it exists, is not listening, and nothing is generating or disabled |
| VoiceInput.VoiceInput.StopListening | src/components/VoiceInput.tsx:165-175 | only while listening: stop, cancel the scheduled send, and send the trimmed transcript when non-blank and not generating |
| VoiceInput.VoiceInput.HandleSend | src/components/VoiceInput.tsx:177-184 | a message goes out only when non-blank and not generating, and then the transcript is cleared |
| VoiceNameInput.VoiceNameInput.constructor | src/components/VoiceNameInput.tsx:15-25 | not listening, no transcript, nothing scheduled |
| VoiceNameInput.VoiceNameInput.OnStart | src/components/VoiceNameInput.tsx:33-40 | listening starts with an empty transcript |
| VoiceNameInput.VoiceNameInput.OnResult | src/components/VoiceNameInput.tsx:42-71 | the transcript is final then interim text; the scheduled capture is replaced by one for the final text, or dropped when it is blank |
| VoiceNameInput.VoiceNameInput.OnTimer | src/components/VoiceNameInput.tsx:65-69 | the scheduled capture captures the trimmed final text unless it is blank |
| VoiceNameInput.VoiceNameInput.OnError | src/components/VoiceNameInput.tsx:73-91 | listening stops and the transcript is cleared |
| VoiceNameInput.VoiceNameInput.OnEnd | src/components/VoiceNameInput.tsx:93-99 | listening stops, the transcript is cleared and the scheduled capture is cancelled |
| VoiceNameInput.VoiceNameInput.StartListening | src/components/VoiceNameInput.tsx:135-148 | the recognizer starts exactly when it exists, is not listening and is not disabled |
| VoiceNameInput.VoiceNameInput.StopListening | src/components/VoiceNameInput.tsx:150-160 | only while listening: stop, cancel the scheduled capture, and capture the trimmed transcript when non-blank |
| VoiceNameInput.VoiceNameInput.HandleNameCaptured | src/components/VoiceNameInput.tsx:162-169 | a name is captured trimmed only when non-blank, and then the transcript is cleared |

## Left out

- The text-generation call (`callOpenRouterAPI`, `src/pages/Index.tsx:137-367`) is a foreign HTTP request. It is a parameter, a reply or a failure. The only rule kept is the up-front missing-key failure (`IndexPage.CallResult`). Its system prompt text is not modelled.
- Real time. The 30 ms, 500 ms, 1000 ms, 1500 ms and 2000 ms timers are steps: one method call per expiry.
  - Races between timers are concurrency and not modelled. Examples are a session switch while an animation runs, two overlapping animations, or a send while the previous reveal is pending.
  - `IndexPage.Page.StartTyping` requires that no animation is running, for this reason.
- React's batching of state updates and the order in which effects run within one render are not modelled. Each handler applies its updates as one step.
- `ChatSection.StreamingText` models the two effects one at a time. The interleaving of a text change with a pending tick is left out.
- `isProcessing` in both voice components is set and cleared within one synchronous handler, so it never holds across a step. It is left out.
- `VoiceInput.VoiceInput` recreates its recognizer whenever `isGenerating` changes, and its handlers see the `isGenerating` of the render that created them. The model passes that value as a parameter, and `VoiceInput.VoiceInput.GeneratingChanged` is the cleanup step, which cancels a pending send. The cleanup also stops the recognizer captured by that effect, which from the second change on is an older instance; that stop is not modelled (its `onend` is the `OnEnd` event). `VoiceNameInput.VoiceNameInput` creates its recognizer once (`src/components/VoiceNameInput.tsx:112`) and has no `isGenerating`.
- The `SpeechRecognition` object's own lifecycle, its errors, the random audio level and `requestAnimationFrame` are browser APIs and are not modelled. Its events are methods.
- Viewport, dark mode, scrolling, toasts, `localStorage`, the landing and loading pages, and the JSX layout are presentation and browser I/O.
- `src/components/DeployButton.tsx`, `src/components/DeploymentPanel.tsx`, `src/components/ChatManagement.tsx`, `src/components/LivePreview.tsx`, `src/components/LandingPage.tsx` and `src/components/LoadingPage.tsx` are not part of this model.
- `toggleCodePreview` (`src/pages/Index.tsx:581-583`) only flips the editor panel's visibility and is not modelled.
- Strings are sequences of UTF-16 code units, as in JavaScript. Case folding is ASCII only, which is what the `i` flag does without `u` for the ASCII labels used.
- `IndexPage.Page.CreateNewChat`: the source reads the clock twice, once for the id and once for `createdAt` (`src/pages/Index.tsx:530-533`); the model reads it once, so the two agree even when the millisecond changes between the reads.
- Chat ids are the millisecond count rather than its decimal string. `IndexPage.DecimalRoundTrip` shows the string determines the count, so comparisons agree. The first chat's id `'1'` is the count 1.
- `ImprovementSection.ImprovementBox.EndSubmit`: the rejected case is modelled, but the page's `handleSuggestImprovement` catches its own errors and never rejects. In the running application the box is therefore always cleared.
- `VoiceInput.VoiceInput`: this component is not mounted anywhere in the application (the chat box's voice slot is empty). It is modelled as written.
- `VoiceInput.VoiceInput.OnError`: `onerror` does not cancel a scheduled send. The model keeps the pending send, so a send can still fire after an error.
- `ChatSection.ButtonsIff`: no code path ever clears a message's `isStreaming` flag. Assistant messages added by the page are all marked streaming, so in practice the code buttons never show.
- `IndexPage.Page.CompleteSend`: `isGenerating` is false when the handler returns, 2000 ms before the animation even starts. The contract states it and does not imply that generation, in the user's sense, is over.
