/** Editing the text of a sent message (messenger/classes/Message/MessageEditor.ts). */
module MessageEditors {
  import opened Wrappers
  import opened Messages
  import opened Users

  /** The optimistic local edit: the new text shown, and the message marked as sending. */
  function Edited(st: MessageState, text: string): MessageState {
    st.(fields := st.fields.(body := text), sending := true)
  }

  /** What a rejected edit restores: the body from before, and the sending mark cleared. */
  function RolledBack(st: MessageState, body: string): MessageState {
    st.(fields := st.fields.(body := body), sending := false)
  }

  /** Rolling an edit back returns a message that was not being sent to exactly its old state. */
  lemma RollBackRestores(st: MessageState, text: string)
    requires !st.sending
    ensures RolledBack(Edited(st, text), st.fields.body) == st
  {
  }

  /** The pending server call of `edit`: the message, the text sent, and the body to restore. */
  datatype EditRequest = EditRequest(message: Message, text: string, oldBody: string)

  class MessageEditor {
    const user: User
    /** The message being edited, if any. */
    var message: Message?
    /** The value of the text input. */
    var input: string

    constructor (user: User)
      ensures this.user == user && message == null && input == ""
    {
      this.user := user;
      message := null;
      input := "";
    }

    /** `setMessage(m)`: `m` becomes the edited message and, when given, its body fills the input. */
    method SetMessage(m: Message?)
      modifies this
      ensures message == m
      ensures input == if m != null then m.fields.body else old(input)
    {
      message := m;
      if m != null {
        input := m.fields.body;
      }
    }

    /** The `isChange` getter. */
    function IsChange(): (r: bool)
      reads this, message
      ensures r <==> message != null && message.fields.body != input
    {
      message != null && message.fields.body != input
    }

    /**
     * The `isCanDeleteText` getter: the text may only be emptied when the message keeps an
     * attachment; with no message, `undefined === 0` is false and the answer is true.
     */
    function IsCanDeleteText(): (r: bool)
      reads this, message
      ensures message != null && message.fields.attachments == [] ==> (r <==> input != "")
      ensures message == null || message.fields.attachments != [] ==> r
    {
      if message != null && |message.fields.attachments| == 0 then input != "" else true
    }

    /** `edit` acts on the current user's own message, when there is a change that may be made. */
    predicate MayEdit()
      reads this, user, message
    {
      message != null && user.info.Some? && user.info.value.id == message.fields.sender.id
      && IsChange() && IsCanDeleteText()
    }

    /**
     * The synchronous part of `edit`. An upload in progress only gets the new text, and the
     * editor is closed. A message not being sent gets the new text and is marked sending, the
     * editor is closed, and the server call is returned. A message that is being sent but not
     * uploaded, or an edit that may not be made, changes nothing.
     */
    method BeginEdit() returns (request: Option<EditRequest>)
      modifies this, message
      ensures !old(MayEdit()) ==> request.None? && message == old(message) && input == old(input)
      ensures !old(MayEdit()) && message != null ==> message.State() == old(message.State())
      ensures old(MayEdit()) && old(message.isLoading) ==>
        request.None? && message == null && input == old(input)
        && old(message).State() == old(message.State()).(fields := old(message.fields).(body := old(input)))
      ensures old(MayEdit()) && !old(message.isLoading) && old(message.sending) ==>
        request.None? && message == old(message) && input == old(input) && message.State() == old(message.State())
      ensures old(MayEdit()) && !old(message.isLoading) && !old(message.sending) ==>
        request == Some(EditRequest(old(message), old(input), old(message.fields.body)))
        && message == null && input == old(input)
        && old(message).State() == Edited(old(message.State()), old(input))
    {
      if MayEdit() {
        var m := message;
        var body := m.fields.body;
        if m.isLoading {
          m.SetBody(input);
          SetMessage(null);
        } else if !m.sending {
          m.SetBody(input);
          m.MarkSending(true);
          SetMessage(null);
          return Some(EditRequest(m, input, body));
        }
      }
      return None;
    }

    /**
     * The rest of `edit`, given the server's answer: the server copy is taken over and the
     * sending mark cleared; on rejection the old body comes back, the mark is cleared, and the
     * failure is returned.
     */
    static method FinishEdit(request: EditRequest, answer: Result<MessageData>) returns (failure: Option<Failure>)
      requires answer.Ok? ==> Complete(answer.value)
      modifies request.message
      ensures var m := request.message;
        answer.Ok? ==> failure.None? && m.Valid() && m.Data() == Normalize(answer.value) && !m.sending
      ensures var m := request.message;
        answer.Ok? ==> m.error == old(m.error) && m.uploads == old(m.uploads) && m.isLoading == old(m.isLoading)
      ensures var m := request.message;
        answer.Err? ==> failure == Some(answer.error) && m.State() == RolledBack(old(m.State()), request.oldBody)
    {
      var m := request.message;
      match answer
      case Ok(d) =>
        // `update` keeps the sending mark, so clearing it first gives the same state
        m.MarkSending(false);
        m.Update(d);
        failure := None;
      case Err(f) =>
        m.SetBody(request.oldBody);
        m.MarkSending(false);
        failure := Some(f);
    }

    /**
     * `edit` with the server's answer arriving at once: a rejected optimistic edit leaves the
     * message exactly as it was before.
     */
    method Edit(answer: Result<MessageData>) returns (failure: Option<Failure>)
      requires answer.Ok? ==> Complete(answer.value)
      modifies this, message
      ensures failure.Some? ==> answer.Err? && failure == Some(answer.error)
      ensures old(MayEdit()) && !old(message.isLoading) && !old(message.sending) ==>
        var m := old(message);
        && message == null && input == old(input)
        && (answer.Ok? ==> failure.None? && m.Valid() && m.Data() == Normalize(answer.value) && !m.sending)
        && (answer.Err? ==> m.State() == old(m.State()))
      ensures !(old(MayEdit()) && !old(message.isLoading) && !old(message.sending)) ==> failure.None?
    {
      var request := BeginEdit();
      failure := None;
      if request.Some? {
        RollBackRestores(old(request.value.message.State()), request.value.text);
        failure := FinishEdit(request.value, answer);
      }
    }
  }
}
