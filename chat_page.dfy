/** The non-visual part of the AI chat page: the conversation, the input box,
    the attached files and the loading flag, changed by typing, uploading,
    removing a file, sending and the completion of the chat request. The
    pure pieces (content composition, file removal, the last user message,
    the textarea size and the send-button condition) are functions. */
module ChatPage {
  import opened Wrappers
  import opened JsText
  import opened AiService
  import Toasts

  /** An attached file, by name and by the size text shown for it (the
      kilobyte count as the page formats it). */
  datatype UploadedFile = UploadedFile(name: string, sizeText: string)

  /** Height and overflow mode written to the textarea's style. */
  datatype TextareaStyle = TextareaStyle(height: nat, overflowAuto: bool)

  const MinHeight: nat := 80
  const MaxHeight: nat := 200
  const ApologyText: string := "Sorry, I encountered an error. Please try again later."
  const KeyFallbackMessage: string := "API key is not configured correctly"

  /** The line listing one attached file: `- name (size KB)`. */
  function FileLine(f: UploadedFile): (line: string)
    ensures |line| == |f.name| + |f.sizeText| + 8
    ensures line[..2] == "- " && line[2..2 + |f.name|] == f.name
    ensures '\n' !in f.name && '\n' !in f.sizeText ==> '\n' !in line
  {
    "- " + f.name + " (" + f.sizeText + " KB)"
  }

  function FileLines(files: seq<UploadedFile>): (lines: seq<string>)
    ensures |lines| == |files|
    ensures forall i :: 0 <= i < |files| ==> lines[i] == FileLine(files[i])
  {
    seq(|files|, i requires 0 <= i < |files| => FileLine(files[i]))
  }

  /** The attachment list: one line per file, in upload order. */
  function AttachmentList(files: seq<UploadedFile>): (list: string)
    ensures list == "" <==> files == []
    ensures files != [] ==> FileLine(files[0]) <= list
  {
    Join(FileLines(files), "\n")
  }

  /** The attachment list can be split back into the file lines, one per
      file, as long as no name or size text contains a line break. */
  lemma AttachmentListRoundTrip(files: seq<UploadedFile>)
    requires |files| >= 1
    requires forall i :: 0 <= i < |files| ==> '\n' !in files[i].name && '\n' !in files[i].sizeText
    ensures Split(AttachmentList(files), '\n') == FileLines(files)
  {
    SplitJoinRoundTrip(FileLines(files), '\n');
  }

  /** Nothing to send: the input is blank and no file is attached. */
  function NothingToSend(input: string, files: seq<UploadedFile>): (nothing: bool)
    ensures nothing <==> (forall k :: 0 <= k < |input| ==> IsWhitespace(input[k])) && files == []
  {
    Trim(input) == "" && |files| == 0
  }

  /** The send button is disabled while a reply is loading or when there is
      nothing to send. */
  function SendDisabled(loading: bool, input: string, files: seq<UploadedFile>): (disabled: bool)
    ensures disabled <==> loading || ((forall k :: 0 <= k < |input| ==> IsWhitespace(input[k])) && files == [])
  {
    loading || NothingToSend(input, files)
  }

  /** The text of the user message: the trimmed input, followed by the
      attachment list when files are attached. */
  function ComposeContent(input: string, files: seq<UploadedFile>): (content: string)
    ensures files == [] ==> content == Trim(input)
    ensures files != [] && Trim(input) != "" ==>
      content == Trim(input) + "\n\nAttached files:\n" + AttachmentList(files)
    ensures files != [] && Trim(input) == "" ==>
      content == "Attached files:\n" + AttachmentList(files)
    ensures content == "" <==> NothingToSend(input, files)
  {
    var text := Trim(input);
    if |files| > 0 then
      if text != "" then text + "\n\nAttached files:\n" + AttachmentList(files)
      else "Attached files:\n" + AttachmentList(files)
    else text
  }

  /** `files.filter((_, i) => i !== index)`. */
  function RemoveAt<T>(s: seq<T>, index: int): (r: seq<T>)
    ensures 0 <= index < |s| ==> r == s[..index] + s[index + 1..]
    ensures !(0 <= index < |s|) ==> r == s
  {
    if s == [] then []
    else RemoveAt(s[..|s| - 1], index) + (if index == |s| - 1 then [] else [s[|s| - 1]])
  }

  /** `s.slice().reverse()`. */
  function Reverse<T>(s: seq<T>): (r: seq<T>)
    ensures |r| == |s|
    ensures forall i {:trigger r[i]} :: 0 <= i < |s| ==> r[i] == s[|s| - 1 - i]
  {
    if s == [] then [] else [s[|s| - 1]] + Reverse(s[..|s| - 1])
  }

  /** `s.find(m => m.role === 'user')`. */
  function FindUser(s: seq<Message>): (found: Option<Message>)
    ensures found.Some? ==> found.value in s && found.value.role == User
  {
    if s == [] then None
    else if s[0].role == User then Some(s[0])
    else FindUser(s[1..])
  }

  /** The first user message is found when there is one, and nothing before
      it is a user message. */
  lemma {:induction false} FindUserFirst(s: seq<Message>)
    ensures FindUser(s).None? <==> forall i :: 0 <= i < |s| ==> s[i].role != User
    ensures FindUser(s).Some? ==>
      exists i :: (0 <= i < |s| && s[i] == FindUser(s).value
        && s[i].role == User && forall j :: 0 <= j < i ==> s[j].role != User)
  {
    if s != [] && s[0].role != User {
      FindUserFirst(s[1..]);
      if FindUser(s).Some? {
        var i :| 0 <= i < |s[1..]| && s[1..][i] == FindUser(s).value
          && s[1..][i].role == User && forall j :: 0 <= j < i ==> s[1..][j].role != User;
        assert s[i + 1] == FindUser(s).value;
        assert forall j :: 0 <= j < i + 1 ==> s[j].role != User by {
          forall j | 0 <= j < i + 1
            ensures s[j].role != User
          {
            if j > 0 { assert s[j] == s[1..][j - 1]; }
          }
        }
      }
    }
  }

  /** The message shown while a reply loads: the last user message. */
  function LastUserMessage(messages: seq<Message>): (last: Option<Message>)
    ensures last.Some? ==> last.value in messages && last.value.role == User
  {
    var r := Reverse(messages);
    var found := FindUser(r);
    assert found.Some? ==> found.value in messages by {
      if found.Some? {
        var i :| 0 <= i < |r| && r[i] == found.value;
        assert messages[|messages| - 1 - i] == found.value;
      }
    }
    found
  }

  /** A conversation without user messages reverses into one without. */
  lemma {:induction false} ReverseKeepsNoUser(messages: seq<Message>)
    requires forall i :: 0 <= i < |messages| ==> messages[i].role != User
    ensures forall i :: 0 <= i < |messages| ==> Reverse(messages)[i].role != User
  {
    var r, n := Reverse(messages), |messages|;
    forall i | 0 <= i < n
      ensures r[i].role != User
    {
      assert r[i] == messages[n - 1 - i];
    }
  }

  /** A reversed conversation without user messages came from one without. */
  lemma {:induction false} ReverseReflectsNoUser(messages: seq<Message>)
    requires forall i :: 0 <= i < |messages| ==> Reverse(messages)[i].role != User
    ensures forall i :: 0 <= i < |messages| ==> messages[i].role != User
  {
    var r, n := Reverse(messages), |messages|;
    forall i | 0 <= i < n
      ensures messages[i].role != User
    {
      assert messages[i] == r[n - 1 - i];
    }
  }

  /** The first user message of the reversed conversation is, in the
      original order, a user message with none after it. */
  lemma {:induction false} FirstOfReversedIsLast(messages: seq<Message>, i: nat)
    requires i < |messages|
    requires forall j :: 0 <= j < i ==> Reverse(messages)[j].role != User
    ensures var k := |messages| - 1 - i;
      && messages[k] == Reverse(messages)[i]
      && forall j :: k < j < |messages| ==> messages[j].role != User
  {
    var r, n := Reverse(messages), |messages|;
    forall j | n - 1 - i < j < n
      ensures messages[j].role != User
    {
      assert messages[j] == r[n - 1 - j];
    }
  }

  /** `LastUserMessage` is none exactly when there is no user message, and
      otherwise a user message with no user message after it. */
  lemma {:induction false} LastUserMessageIsLast(messages: seq<Message>)
    ensures LastUserMessage(messages).None? <==> forall i :: 0 <= i < |messages| ==> messages[i].role != User
    ensures LastUserMessage(messages).Some? ==>
      exists k :: (0 <= k < |messages|
        && messages[k] == LastUserMessage(messages).value && messages[k].role == User
        && forall j :: k < j < |messages| ==> messages[j].role != User)
  {
    var r := Reverse(messages);
    FindUserFirst(r);
    if forall i :: 0 <= i < |messages| ==> messages[i].role != User {
      ReverseKeepsNoUser(messages);
    }
    if forall i :: 0 <= i < |r| ==> r[i].role != User {
      ReverseReflectsNoUser(messages);
    }
    if LastUserMessage(messages).Some? {
      var i :| 0 <= i < |r| && r[i] == LastUserMessage(messages).value
        && r[i].role == User && forall j :: 0 <= j < i ==> r[j].role != User;
      FirstOfReversedIsLast(messages, i);
      assert messages[|messages| - 1 - i] == r[i];
    }
  }

  /** The auto-resize of the input box: the content height clamped into
      [MinHeight, MaxHeight], with a scrollbar exactly when the content does
      not fit. */
  function TextareaStyleFor(scrollHeight: nat): (st: TextareaStyle)
    ensures MinHeight <= st.height <= MaxHeight
    ensures MinHeight <= scrollHeight <= MaxHeight ==> st.height == scrollHeight
    ensures scrollHeight < MinHeight ==> st.height == MinHeight
    ensures scrollHeight > MaxHeight ==> st.height == MaxHeight
    ensures st.overflowAuto <==> scrollHeight > st.height
  {
    var clamped := if scrollHeight < MaxHeight then scrollHeight else MaxHeight;
    TextareaStyle(if MinHeight > clamped then MinHeight else clamped, scrollHeight > MaxHeight)
  }

  class Page {
    const apiKey: Option<string>
    const toaster: Toasts.ToastStore
    var messages: seq<Message>
    var input: string
    var files: seq<UploadedFile>
    var loading: bool
    var apiKeyValidated: bool

    ghost predicate Valid()
      reads this, toaster
    {
      toaster.Valid() && (apiKeyValidated ==> UsableKey(apiKey))
    }

    /** Opening the page checks the key once: a usable key is remembered as
        validated, otherwise its validation message is raised as an error
        toast. */
    constructor Mount(key: Option<string>, store: Toasts.ToastStore, now: nat)
      requires store.Valid()
      modifies store
      ensures Valid() && apiKey == key && toaster == store
      ensures messages == [] && input == "" && files == [] && !loading
      ensures apiKeyValidated == UsableKey(key)
      ensures UsableKey(key) ==> store.toasts == old(store.toasts) && store.recent == old(store.recent)
      ensures !UsableKey(key) ==>
        store.toasts == old(store.Shown(ValidateApiKey(key).message.value, Toasts.Error, now))
    {
      apiKey, toaster := key, store;
      messages, input, files, loading := [], "", [], false;
      apiKeyValidated := false;
      new;
      var validation := ValidateApiKey(key);
      if validation.isValid {
        apiKeyValidated := true;
      } else if validation.message.Some? {
        toaster.AddToast(validation.message.value, Toasts.Error, now);
      }
    }

    /** Typing into the input box. */
    method SetInput(text: string)
      requires Valid()
      modifies this
      ensures Valid() && input == text
      ensures messages == old(messages) && files == old(files) && loading == old(loading)
      ensures apiKeyValidated == old(apiKeyValidated)
    {
      input := text;
    }

    /** Choosing files appends them after the files already attached. */
    method UploadFiles(chosen: seq<UploadedFile>)
      requires Valid()
      modifies this
      ensures Valid() && files == old(files) + chosen
      ensures messages == old(messages) && input == old(input) && loading == old(loading)
      ensures apiKeyValidated == old(apiKeyValidated)
    {
      if |chosen| > 0 {
        files := files + chosen;
      }
    }

    /** Removing the attachment at `index`. */
    method RemoveFile(index: int)
      requires Valid()
      modifies this
      ensures Valid() && files == RemoveAt(old(files), index)
      ensures messages == old(messages) && input == old(input) && loading == old(loading)
      ensures apiKeyValidated == old(apiKeyValidated)
    {
      files := RemoveAt(files, index);
    }

    /** The submit half of `handleSendMessage`: with something to send and a
        usable key, the user message is appended, the input and the
        attachments are cleared and the page starts loading; the result is
        the history handed to the chat request. Otherwise nothing changes
        but a toast for an unusable key. */
    method SendMessage(now: nat) returns (history: Option<seq<Message>>)
      requires Valid()
      modifies this, toaster
      ensures Valid()
      ensures old(apiKeyValidated) ==> apiKeyValidated
      ensures NothingToSend(old(input), old(files)) ==>
        && history == None
        && messages == old(messages) && input == old(input) && files == old(files)
        && loading == old(loading) && apiKeyValidated == old(apiKeyValidated)
        && toaster.toasts == old(toaster.toasts) && toaster.recent == old(toaster.recent)
      ensures !NothingToSend(old(input), old(files)) && !old(apiKeyValidated) && !UsableKey(apiKey) ==>
        && history == None
        && messages == old(messages) && input == old(input) && files == old(files)
        && loading == old(loading) && !apiKeyValidated
        && toaster.toasts == old(toaster.Shown(ValidateApiKey(apiKey).message.value, Toasts.Error, now))
      ensures !NothingToSend(old(input), old(files)) && (old(apiKeyValidated) || UsableKey(apiKey)) ==>
        && history == Some(old(messages) + [Message(User, ComposeContent(old(input), old(files)))])
        && messages == history.value
        && input == "" && files == [] && loading && apiKeyValidated
        && toaster.toasts == old(toaster.toasts) && toaster.recent == old(toaster.recent)
    {
      if Trim(input) == "" && |files| == 0 {
        return None;
      }
      if !apiKeyValidated {
        var validation := ValidateApiKey(apiKey);
        if !validation.isValid {
          toaster.AddToast(validation.message.GetOr(KeyFallbackMessage), Toasts.Error, now);
          return None;
        }
        apiKeyValidated := true;
      }
      var content := ComposeContent(input, files);
      var userMessage := Message(User, content);
      history := Some(messages + [userMessage]);
      messages := messages + [userMessage];
      input := "";
      files := [];
      loading := true;
    }

    /** The completion half: the chat request for `history` settles (its
        network exchange being `network`); a reply is appended, a failure
        raises its message as a toast and appends the apology, and loading
        ends either way. */
    method Complete(history: seq<Message>, network: Result<Message, string>, now: nat)
      requires Valid()
      modifies this, toaster
      ensures Valid() && !loading
      ensures input == old(input) && files == old(files) && apiKeyValidated == old(apiKeyValidated)
      ensures SendChatRequest(apiKey, history, network).Success? ==>
        && messages == old(messages) + [SendChatRequest(apiKey, history, network).value]
        && toaster.toasts == old(toaster.toasts) && toaster.recent == old(toaster.recent)
      ensures SendChatRequest(apiKey, history, network).Failure? ==>
        && messages == old(messages) + [Message(Assistant, ApologyText)]
        && toaster.toasts == old(toaster.Shown(SendChatRequest(apiKey, history, network).error, Toasts.Error, now))
    {
      var outcome := SendChatRequest(apiKey, history, network);
      if outcome.Success? {
        messages := messages + [outcome.value];
      } else {
        toaster.AddToast(outcome.error, Toasts.Error, now);
        messages := messages + [Message(Assistant, ApologyText)];
      }
      loading := false;
    }
  }

  /** A send of an attachment alone with a failed request: the conversation
      holds the user message and the apology, the attachments are cleared,
      and the error is shown once as a toast. */
  method FailedRequestScenario(now: nat)
  {
    var store := new Toasts.ToastStore();
    var page := new Page.Mount(Some("sk-test"), store, now);
    var file := UploadedFile("a.txt", "1.0");
    page.UploadFiles([file]);
    assert page.messages == [];
    var history := page.SendMessage(now + 1);
    var sent := Message(User, ComposeContent("", [file]));
    assert [] + [sent] == [sent];
    assert history == Some([sent]);
    page.Complete(history.value, Failure("API error: 500"), now + 2);
    assert page.messages == [sent, Message(Assistant, ApologyText)];
    assert page.files == [] && !page.loading;
    assert store.toasts == [Toasts.Toast(now + 2, "API error: 500", Toasts.Error)];
  }
}
