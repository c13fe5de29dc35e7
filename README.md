# vivid-ui: the stateful core of a marketing site and chat page, in Dafny

This project models the parts of the vivid-ui front end that hold state
or make decisions, and it proves what they promise. Everything else in
the site is presentation. The five parts are:

- **Showcase carousel** (`carousel.dfy`, module `Carousel`). Five slides,
  an active index and a progress bar. The bar is computed from the
  milliseconds since the slide became active and is capped at 100. When
  it reaches 100, one advance timeout (200 ms) is scheduled. That timeout
  moves the carousel to `(idx + 1) % 5`. A click on another slide jumps to
  it at once. Every index change cancels the previous visit's frame and
  timeout, resets the bar and restarts the elapsed-time baseline. The
  class `ShowcaseCarousel` keeps these as fields. Animation frames, the
  timeout and the click are the events `Frame(now)`, `FireTimer(now)`,
  `Select(index, now)` and `Unmount()`, each given the current time in
  milliseconds.
- **Toast store** (`toasts.dfy`, module `Toasts`). A list of toasts and a
  set of recent `message-type` keys. A toast whose key is still recent is
  dropped. Otherwise the key becomes recent and the toast is appended. Key
  and toast both expire 5000 ms later. The two timeouts of each add are
  pending `Timer` values, and `Tick(now)` fires those that are due.
- **Theme selection** (`theme.dfy`, module `Theme`). Five theme names and
  an initial theme taken from the stored preference when it is a known
  name. `SetTheme` ignores unknown names. Applying a theme removes the four
  theme classes from the root element's class set, adds the class of a
  non-light theme, and stores the theme. Browser storage is the field
  `stored` and the root class list is the field `classes`.
- **API key validation** (`ai_service.dfy`, module `AiService`). The
  three-way validator and the guard at the top of `sendChatRequest`. The
  key is a parameter. The network exchange is an input (`network`).
- **Chat page** (`chat_page.dfy`, module `ChatPage`). The send guard, the
  composition of the user message from the trimmed input and the
  attachment list, the submit step and the completion step. Also: file
  upload and removal, the last user message, the textarea auto-size and
  the send-button condition. `jstext.dfy` (module `JsText`) gives
  JavaScript's `trim`, `join` and `split` as functions. `wrappers.dfy`
  gives `Option` and `Result`.

`handleSectionClick` has no range check on the clicked index: it is only
called with indices of the slide list. The model follows the code rather
than treating an out-of-range index as a no-op:
`ShowcaseCarousel.Select` requires `index < SlideCount`.

Toast ids are the millisecond timestamp of the add. Two toasts added in
the same millisecond therefore share an id, and `removeToast` on that id
removes both. The model keeps this behaviour: `RemoveToast` removes every
toast with the given id.

## Model

| member | source | states |
|---|---|---|
| Carousel.Progress | src/components/sections/ScaleShowcaseSection.tsx:55-58 | The bar is never above 100, is non-negative for non-negative elapsed time, and is exactly 100 once 8000 ms have elapsed. |
| Carousel.ProgressMonotone | src/components/sections/ScaleShowcaseSection.tsx:55-58 | More elapsed time never gives a smaller bar. |
| Carousel.Next | src/components/sections/ScaleShowcaseSection.tsx:65 | An automatic advance stays in [0, 5) and wraps from the last slide to slide 0. |
| Carousel.AdvanceRotates | src/components/sections/ScaleShowcaseSection.tsx:65 | k automatic advances from slide i land on (i + k) mod 5. |
| Carousel.FullCycleReturns | src/components/sections/ScaleShowcaseSection.tsx:65 | Five automatic advances return to the starting slide, and no shorter positive run does. |
| Carousel.ShowcaseCarousel.Mount | src/components/sections/ScaleShowcaseSection.tsx:44-53 | The carousel starts on slide 0 with an empty bar, the baseline at the mount time and one frame requested. |
| Carousel.ShowcaseCarousel.StartVisit | src/components/sections/ScaleShowcaseSection.tsx:50-75 | An index change cancels the old frame and timeout, resets the bar to 0, sets the baseline to now and requests one frame. |
| Carousel.ShowcaseCarousel.Frame | src/components/sections/ScaleShowcaseSection.tsx:55-68 | A pending frame sets the bar from the elapsed time, and the bar never goes down. Below 100 another frame is requested; at 100 no frame is requested and exactly one advance timeout is scheduled 200 ms later. Without a pending frame nothing changes. |
| Carousel.ShowcaseCarousel.FireTimer | src/components/sections/ScaleShowcaseSection.tsx:63-66 | A pending, due timeout moves to the next slide and starts its visit. A stale or cancelled timeout changes nothing. |
| Carousel.ShowcaseCarousel.Select | src/components/sections/ScaleShowcaseSection.tsx:78-84 | A click on another slide makes it active with a reset bar and no pending timeout. A click on the active slide changes nothing. |
| Carousel.ShowcaseCarousel.Unmount | src/components/sections/ScaleShowcaseSection.tsx:71-74 | Teardown cancels the pending frame and timeout, so no later event changes index or bar. |
| Toasts.Key | src/context/ToastContext.tsx:33-34 | The key starts with the message and is one separator and the type name longer. |
| Toasts.KeyInjective | src/context/ToastContext.tsx:33-34 | Equal keys come from equal (message, type) pairs. |
| Toasts.Without | src/context/ToastContext.tsx:63-65 | A toast survives the filter exactly when it was in the list and its id is not removed. |
| Toasts.WithoutAppend | src/context/ToastContext.tsx:63-65 | The filter distributes over concatenation, so survivors keep their order. |
| Toasts.WithoutIdempotent | src/context/ToastContext.tsx:63-65 | Removing the same ids twice equals removing them once. |
| Toasts.WithoutAbsent | src/context/ToastContext.tsx:63-65 | Removing an id no toast has leaves the list unchanged. |
| Toasts.ToastStore.constructor | src/context/ToastContext.tsx:26-29 | The store starts with no toasts, no recent keys and no timers. |
| Toasts.ToastStore.AddToast | src/context/ToastContext.tsx:32-60 | A recent key changes nothing. Otherwise the key becomes recent, exactly one toast {now, message, type} is appended after the earlier ones, and two expiries 5000 ms later are scheduled. |
| Toasts.ToastStore.RemoveToast | src/context/ToastContext.tsx:63-65 | Every toast with the id is removed, the rest keep their order, and the recent keys and timers are untouched. |
| Toasts.ToastStore.Tick | src/context/ToastContext.tsx:44-59 | Every due expiry fires. Afterwards no toast added 5000 ms or more ago remains, and every recent key still has an expiry pending in the future. |
| Theme.ThemeOrderWellFormed | src/context/ThemeContext.tsx:3-4 | There are five distinct themes and the first is "light". |
| Theme.InitialTheme | src/context/ThemeContext.tsx:18-24 | The initial theme is the stored value when it is a known theme, else "light"; it is always a known theme. |
| Theme.ThemeClass | src/context/ThemeContext.tsx:32-35 | Only a non-light theme has a root class, and that class is one of the four theme classes. |
| Theme.ApplyClasses | src/context/ThemeContext.tsx:30-35 | After apply, the theme classes on the root are exactly theme-t for a non-light t and none for "light", and every class outside the four theme classes is kept as it was. |
| Theme.ApplyIdempotent | src/context/ThemeContext.tsx:30-35 | Applying the same theme twice equals applying it once. |
| Theme.StoreRestoreRoundTrip | src/context/ThemeContext.tsx:18-37 | Restoring from the value apply stores gives back the same theme. |
| Theme.ThemeProvider.Mount | src/context/ThemeContext.tsx:17-38 | The provider starts with the restored theme, applied to the root classes and stored. From then on the invariant holds: the theme is known, it is the stored one, and the root carries exactly its theme class. |
| Theme.ThemeProvider.Apply | src/context/ThemeContext.tsx:26-38 | The root classes become the applied set for the current theme, and the current theme is stored. |
| Theme.ThemeProvider.SetTheme | src/context/ThemeContext.tsx:40-46 | A known theme becomes current and, if it differs from the old one, is applied and stored. An unknown name changes nothing. |
| AiService.ValidateApiKey | src/services/aiService.ts:18-34 | The key is valid exactly when it is present, non-empty and not the placeholder. A message is present exactly when it is invalid: the missing-key text for an absent or empty key, the placeholder text for the placeholder. |
| AiService.SendChatRequest | src/services/aiService.ts:41-46 | With an unusable key the request fails with the validation message. Otherwise the outcome is the network's. |
| AiService.RefusedBeforeRequest | src/services/aiService.ts:41-46 | With an unusable key the outcome is a failure and does not depend on the network exchange. |
| JsText.Trim | src/pages/AIPage.tsx:118 | The trimmed input is the infix left after leading and trailing whitespace. It is empty exactly when the input is all whitespace, and otherwise starts and ends with a non-whitespace character. |
| JsText.TrimIdempotent | src/pages/AIPage.tsx:118 | Trimming twice equals trimming once. |
| JsText.Join | src/pages/AIPage.tsx:120 | Joining no parts gives the empty string; otherwise the join starts with the first part, followed by the separator when more parts follow. SplitJoinRoundTrip is its inverse. |
| JsText.SplitJoinRoundTrip | src/pages/AIPage.tsx:120 | Splitting a newline-join on newlines gives back the parts when no part contains a newline. |
| ChatPage.FileLine | src/pages/AIPage.tsx:120 | A file line is "- ", the name, then the size text in " (... KB)", eight characters longer than name and size text together, and it holds no line break when they hold none. |
| ChatPage.AttachmentList | src/pages/AIPage.tsx:120 | The attachment list is empty exactly when no file is attached, and otherwise starts with the first file's line. AttachmentListRoundTrip splits it back into the lines. |
| ChatPage.AttachmentListRoundTrip | src/pages/AIPage.tsx:120 | The attachment list splits back into one line per file, in upload order. |
| ChatPage.NothingToSend | src/pages/AIPage.tsx:105 | There is nothing to send exactly when the input is all whitespace and no file is attached. |
| ChatPage.SendDisabled | src/pages/AIPage.tsx:241 | Send is disabled exactly while loading, or when the input is all whitespace and no file is attached. |
| ChatPage.ComposeContent | src/pages/AIPage.tsx:117-122 | The content is the trimmed input without files. With files it is the input, a blank line, "Attached files:" and the file lines, with no input part when the input is blank. It is empty exactly when there is nothing to send. |
| ChatPage.RemoveAt | src/pages/AIPage.tsx:99-101 | Removing index i drops only the i-th file and keeps the others in order; an index outside the list removes nothing. |
| ChatPage.Reverse | src/pages/AIPage.tsx:253 | The reversed list has the same length and holds element i at position n-1-i. |
| ChatPage.FindUser | src/pages/AIPage.tsx:253 | A found message is a user message of the list. FindUserFirst shows it is the first one, and that nothing is found exactly when there is no user message. |
| ChatPage.FindUserFirst | src/pages/AIPage.tsx:253 | find returns nothing exactly when there is no user message, and otherwise the first user message. |
| ChatPage.LastUserMessage | src/pages/AIPage.tsx:253 | A found message is a user message of the conversation. LastUserMessageIsLast shows no user message follows it, and that nothing is found exactly when there is no user message. |
| ChatPage.LastUserMessageIsLast | src/pages/AIPage.tsx:253 | The last user message is none exactly when there is no user message, and otherwise a user message with no user message after it. |
| ChatPage.TextareaStyleFor | src/pages/AIPage.tsx:71-82 | The height is the content height clamped into [80, 200], and the scrollbar is on exactly when the content is taller than the box. |
| ChatPage.Page.Mount | src/pages/AIPage.tsx:16-63 | The page starts empty. The key is marked validated exactly when it is usable; otherwise its validation message is raised as an error toast. |
| ChatPage.Page.SetInput | src/pages/AIPage.tsx:201 | Typing, or a suggestion chip click (which sets the input to its prompt at lines 156-160), replaces the input and nothing else. |
| ChatPage.Page.UploadFiles | src/pages/AIPage.tsx:85-96 | Chosen files are appended after the attached ones. |
| ChatPage.Page.RemoveFile | src/pages/AIPage.tsx:99-101 | The attachment at the index is removed as RemoveAt states. |
| ChatPage.Page.SendMessage | src/pages/AIPage.tsx:104-134 | With nothing to send, nothing changes. With an unvalidated, unusable key, only an error toast is raised. Otherwise exactly the composed user message is appended, input and files are cleared, loading starts, and the history sent is the prior messages plus that message. The validated flag never goes back to false. |
| ChatPage.Page.Complete | src/pages/AIPage.tsx:136-153 | A reply is appended on success. On failure the error is raised as a toast and the fixed apology is appended. Loading ends in both cases. |

## Left out

- Rendering, framer-motion animation and styling: they are presentation.
- The slide records (titles, descriptions, badges, images): the model keeps only their number.
- The HTTP exchange of `sendChatRequest` (its `fetch`, headers and JSON body): it is network I/O, so its outcome is the `network` input of `SendChatRequest`.
- Real timing (`Date.now`, `requestAnimationFrame`, `setTimeout`): time is an explicit millisecond clock and the callbacks are discrete events.
- A wall clock that goes backwards: carousel events require a time no earlier than the last one seen.
- Floating-point rounding of the progress value: progress is a `real`.
- The React render between an index change and the effect that resets the bar: the index change and the effect are one step in the model.
- The order in which timeouts that fall due in the same `Tick` run: their effects commute, so `Tick` applies them together.
- The file-size text `(file.size / 1024).toFixed(1)`: it is floating-point formatting, so each file carries its size text as an opaque string.
- DOM and browser APIs (`localStorage`, `classList`, `scrollIntoView`, style writes): they are the plain fields `stored`, `classes` and the `TextareaStyle` value. The textarea reset after sending is a style write and is not modelled.
- `console.log`, `console.warn` and `console.error`: they are logging only.
- The "must be used within a Provider" errors of `useToast` and `useTheme`: they are React context plumbing.
- The chat page's code and preview view state: it is display state.
- The suggestion chips and the Enter-key handler are not separate operations: a chip click sets the input to the chip's prompt, which `Page.SetInput` models, and the Enter key only calls `SendMessage`. The focus change after a chip click is a DOM call.
- Header, modals, pricing, hero, scroll-to-top and the other static sections are not part of this model.
