/** A chat message and its local state while it is being sent (Message.ts). */
module Messages {
  import opened Wrappers
  import Text
  import opened Attachments
  import Loaders
  import opened Emotions
  import Agg = Reactions
  import SplitedAttachmentsModule

  datatype Sender = Sender(id: string, username: string)
  datatype Mention = Mention(id: string, username: string)
  datatype Button = Button(id: string, text: string)
  datatype Keyboard = Keyboard(oneTime: bool, hide: bool, buttons: seq<Button>)

  /**
   * A message as plain data: `IMessage`, and the `InitData` the constructor accepts, where most
   * fields may be missing (`None`). Timestamps are integers; `system` is `type === "system"`.
   */
  datatype MessageData = MessageData(
    id: string,
    deleted: Option<bool>,
    system: bool,
    attachments: Option<seq<Attachment>>,
    body: Option<string>,
    forwarded: Option<MessageData>,
    keyboard: Option<Keyboard>,
    createdAt: int,
    edited: Option<bool>,
    mentions: Option<seq<Mention>>,
    roomId: string,
    sender: Sender,
    updatedAt: int,
    editedAt: Option<int>,
    urls: Option<seq<string>>,
    unread: Option<bool>,
    emotions: Option<seq<EmotionData>>)

  /** `Emotion.listBy(emotions)` on plain data: every user list deduplicated, order kept. */
  function NormalizeEmotions(es: seq<EmotionData>): (r: seq<EmotionData>)
    ensures |r| == |es|
    ensures forall i :: 0 <= i < |r| ==> r[i] == EmotionData(es[i].emotion, Dedup(es[i].users))
  {
    if es == [] then [] else [EmotionData(es[0].emotion, Dedup(es[0].users))] + NormalizeEmotions(es[1..])
  }

  /**
   * What the constructor keeps of its argument: missing flags become false, missing lists
   * become empty, a missing body becomes "", and the forwarded message is built the same way.
   */
  function Normalize(d: MessageData): MessageData
    decreases d
  {
    d.(deleted := Some(d.deleted.GetOr(false)),
       attachments := Some(d.attachments.GetOr([])),
       body := Some(d.body.GetOr("")),
       forwarded := if d.forwarded.Some? then Some(Normalize(d.forwarded.value)) else None,
       edited := Some(d.edited.GetOr(false)),
       mentions := Some(d.mentions.GetOr([])),
       urls := Some(d.urls.GetOr([])),
       emotions := Some(NormalizeEmotions(d.emotions.GetOr([]))))
  }

  /** Data in the shape the constructor produces. */
  predicate Normal(d: MessageData)
    decreases d
  {
    d.deleted.Some? && d.attachments.Some? && d.body.Some? && d.edited.Some? && d.mentions.Some?
    && d.urls.Some? && d.emotions.Some?
    && (forall i :: 0 <= i < |d.emotions.value| ==> Distinct(d.emotions.value[i].users))
    && (d.forwarded.Some? ==> Normal(d.forwarded.value))
  }

  /** Normalising yields normal data, and normal data is left as it is. */
  lemma {:induction false} NormalizeNormal(d: MessageData)
    ensures Normal(Normalize(d))
    ensures Normal(d) ==> Normalize(d) == d
    decreases d
  {
    if d.forwarded.Some? {
      NormalizeNormal(d.forwarded.value);
    }
    if Normal(d) {
      var es := d.emotions.value;
      forall i | 0 <= i < |es| ensures Dedup(es[i].users) == es[i].users {
        DedupDistinct(es[i].users);
      }
      assert NormalizeEmotions(es) == es;
    }
  }

  /** The fields `IMessage` requires, which `update` copies without defaults. */
  predicate Complete(d: MessageData) {
    d.deleted.Some? && d.attachments.Some? && d.body.Some? && d.edited.Some? && d.urls.Some?
  }

  /** `error: unknown`: `false` until a failure is recorded. */
  datatype ErrorState = NoError | Raised(failure: Failure)

  datatype Layout = Forward | Default

  datatype Bubble = SystemBubble | DeletedBubble | StickerBubble | AudioBubble | DefaultBubble

  /** The observable fields of a message other than its reactions, with the defaults applied. */
  datatype MessageFields = MessageFields(
    id: string,
    deleted: bool,
    system: bool,
    attachments: seq<Attachment>,
    body: string,
    forwarded: Option<MessageData>,
    keyboard: Option<Keyboard>,
    createdAt: int,
    edited: bool,
    mentions: seq<Mention>,
    roomId: string,
    sender: Sender,
    updatedAt: int,
    editedAt: Option<int>,
    urls: seq<string>,
    unread: Option<bool>)

  /** The fields the constructor assigns from its argument. */
  function FieldsOf(d: MessageData): MessageFields {
    MessageFields(d.id, d.deleted.GetOr(false), d.system, d.attachments.GetOr([]), d.body.GetOr(""),
      if d.forwarded.Some? then Some(Normalize(d.forwarded.value)) else None, d.keyboard, d.createdAt,
      d.edited.GetOr(false), d.mentions.GetOr([]), d.roomId, d.sender, d.updatedAt, d.editedAt,
      d.urls.GetOr([]), d.unread)
  }

  /** `toJSON`: the fields together with the reactions. */
  function ToData(f: MessageFields, rs: seq<EmotionData>): (d: MessageData)
    ensures FieldsOf(d) == f.(forwarded := FieldsOf(d).forwarded)
  {
    MessageData(f.id, Some(f.deleted), f.system, Some(f.attachments), Some(f.body), f.forwarded,
      f.keyboard, f.createdAt, Some(f.edited), Some(f.mentions), f.roomId, f.sender, f.updatedAt,
      f.editedAt, Some(f.urls), f.unread, Some(rs))
  }

  /** Splitting data into fields and reactions and joining them again is normalisation. */
  lemma FieldsJoin(d: MessageData)
    ensures ToData(FieldsOf(d), NormalizeEmotions(d.emotions.GetOr([]))) == Normalize(d)
  {
  }

  /** Everything a message holds: its fields, its reactions, and the local sending state. */
  datatype MessageState = MessageState(
    fields: MessageFields, reactions: seq<EmotionData>, sending: bool, error: ErrorState,
    uploads: seq<Loaders.Upload>, isLoading: bool)

  /** The fields of a message object at one moment, its aggregates by identity. */
  datatype Snapshot = Snapshot(
    fields: MessageFields, emotions: seq<Emotion>, sending: bool, error: ErrorState,
    uploads: seq<Loaders.Upload>, isLoading: bool)

  const DeletedText := "Сообщение удалено"

  /** The values of a list of aggregates. */
  function View(es: seq<Emotion>): (r: seq<EmotionData>)
    reads set i | 0 <= i < |es| :: es[i]
    ensures |r| == |es|
    ensures forall i :: 0 <= i < |r| ==> r[i] == es[i].ToJson()
  {
    if es == [] then [] else [es[0].ToJson()] + View(es[1..])
  }

  /** Fresh aggregate objects for `Emotion.listBy(data)`. */
  method MakeEmotions(data: seq<EmotionData>) returns (es: seq<Emotion>)
    ensures forall i :: 0 <= i < |es| ==> fresh(es[i]) && es[i].Valid()
    ensures forall i, j :: 0 <= i < j < |es| ==> es[i] != es[j]
    ensures View(es) == NormalizeEmotions(data)
  {
    es := [];
    var i := 0;
    while i < |data|
      invariant 0 <= i <= |data| && |es| == i
      invariant forall k :: 0 <= k < i ==> fresh(es[k]) && es[k].Valid()
      invariant forall k, j :: 0 <= k < j < i ==> es[k] != es[j]
      invariant forall k :: 0 <= k < i ==> es[k].ToJson() == EmotionData(data[k].emotion, Dedup(data[k].users))
    {
      var e := new Emotion(data[i]);
      es := es + [e];
      i := i + 1;
    }
    assert forall k :: 0 <= k < |es| ==> View(es)[k] == NormalizeEmotions(data)[k];
  }

  /**
   * A message. The persisted fields are kept together in `fields`; the reactions are mutable
   * `Emotion` objects; `sending`, `error`, `uploads` and `isLoading` are local state.
   */
  class Message {
    var fields: MessageFields
    var emotions: seq<Emotion>
    var sending: bool
    var error: ErrorState
    var uploads: seq<Loaders.Upload>
    var isLoading: bool

    /** The aggregates are distinct objects that keep their own invariant. */
    predicate Valid()
      reads this, emotions
    {
      (forall i, j :: 0 <= i < j < |emotions| ==> emotions[i] != emotions[j])
      && (forall i :: 0 <= i < |emotions| ==> emotions[i].Valid())
      && (fields.forwarded.Some? ==> Normal(fields.forwarded.value))
    }

    function Reactions(): (r: seq<EmotionData>)
      reads this, emotions
      ensures |r| == |emotions|
      ensures forall i :: 0 <= i < |r| ==> r[i] == emotions[i].ToJson()
    {
      View(emotions)
    }

    /** `toJSON`. */
    function Data(): MessageData
      reads this, emotions
    {
      ToData(fields, Reactions())
    }

    function State(): MessageState
      reads this, emotions
    {
      MessageState(fields, Reactions(), sending, error, uploads, isLoading)
    }

    function Snap(): (r: Snapshot)
      reads this
      ensures r.fields == fields && r.emotions == emotions && r.sending == sending && r.error == error
      ensures r.uploads == uploads && r.isLoading == isLoading
    {
      Snapshot(fields, emotions, sending, error, uploads, isLoading)
    }

    /** `new Message(m)`: the message holds `m` normalised, and is neither sending nor failed. */
    constructor (m: MessageData)
      ensures Valid()
      ensures forall i :: 0 <= i < |emotions| ==> fresh(emotions[i])
      ensures Data() == Normalize(m) && fields == FieldsOf(m)
      ensures !sending && error == NoError && uploads == [] && !isLoading
    {
      if m.forwarded.Some? {
        NormalizeNormal(m.forwarded.value);
      }
      var es := MakeEmotions(m.emotions.GetOr([]));
      fields := FieldsOf(m);
      emotions := es;
      sending := false;
      error := NoError;
      uploads := [];
      isLoading := false;
      new;
      FieldsJoin(m);
    }

    /** `toJSON` writes data that the constructor takes back unchanged. */
    lemma DataNormal()
      requires Valid()
      ensures Normal(Data())
      ensures Normalize(Data()) == Data()
    {
      NormalizeNormal(Data());
    }

    /**
     * `update(m)`: the message takes over every field of the server copy, exactly as a message
     * built from it would hold them; the local sending state is kept.
     */
    method Update(m: MessageData)
      requires Complete(m)
      modifies this
      ensures Valid()
      ensures forall i :: 0 <= i < |emotions| ==> fresh(emotions[i])
      ensures Data() == Normalize(m)
      ensures sending == old(sending) && error == old(error) && uploads == old(uploads) && isLoading == old(isLoading)
    {
      if m.forwarded.Some? {
        NormalizeNormal(m.forwarded.value);
      }
      var es := MakeEmotions(m.emotions.GetOr([]));
      fields := MessageFields(m.id, m.deleted.value, m.system, m.attachments.value, m.body.value,
        if m.forwarded.Some? then Some(Normalize(m.forwarded.value)) else None, m.keyboard, m.createdAt,
        m.edited.value, m.mentions.GetOr([]), m.roomId, m.sender, m.updatedAt, m.editedAt, m.urls.value,
        m.unread);
      emotions := es;
      FieldsJoin(m);
    }

    // -------------------------------------------------------------------------
    // derived values

    /** `shortBody`: nothing for an empty body; a body over 45 characters is cut to 40 plus "...". */
    function ShortBody(): (r: Option<string>)
      reads this
      ensures r.None? <==> fields.body == ""
      ensures r.Some? ==> |r.value| <= 45
      ensures r.Some? ==> Text.StartsWith(r.value, fields.body[..if |fields.body| > 45 then 40 else |fields.body|])
      ensures |fields.body| <= 45 && fields.body != "" ==> r == Some(fields.body)
      ensures |fields.body| > 45 ==> r == Some(fields.body[..40] + "...")
    {
      var body := fields.body;
      if body == "" then None
      else if |body| > 45 then
        assert (body[..40] + "...")[..40] == body[..40];
        Some(body[..40] + "...")
      else Some(body)
    }

    /** `layoutType`: a pure forward carries a forwarded message and nothing of its own. */
    function LayoutType(): (l: Layout)
      reads this
      ensures l == Forward <==> fields.forwarded.Some? && fields.body == "" && |fields.attachments| == 0
    {
      if fields.forwarded.Some? && fields.body == "" && !(|fields.attachments| > 0) then Forward else Default
    }

    /** The attachments the bubble shows: the message's own, or the forwarded message's for a forward. */
    function ShownAttachments(): seq<Attachment>
      reads this
    {
      if LayoutType() == Default then fields.attachments else fields.forwarded.value.attachments.GetOr([])
    }

    /** `isSticker`: the first shown attachment is a sticker. */
    function IsSticker(): (r: bool)
      reads this
      ensures r <==> |ShownAttachments()| > 0 && ShownAttachments()[0].kind == Some(Sticker)
    {
      if LayoutType() == Default then |fields.attachments| > 0 && fields.attachments[0].kind == Some(Sticker)
      else
        var fw := fields.forwarded.value.attachments.GetOr([]);
        |fw| > 0 && fw[0].kind == Some(Sticker)
    }

    /**
     * `isAudio`: the first shown attachment is audio, or, for a message of its own, the first
     * pending upload is an audio file.
     */
    function IsAudio(): (r: bool)
      reads this
      ensures LayoutType() == Forward ==> (r <==> |ShownAttachments()| > 0 && ShownAttachments()[0].kind == Some(Audio))
      ensures LayoutType() == Default ==>
        (r <==> ((|fields.attachments| > 0 && fields.attachments[0].kind == Some(Audio))
                 || (|uploads| > 0 && Text.Includes(uploads[0].file.mime, "audio"))))
    {
      if LayoutType() == Default then
        (|fields.attachments| > 0 && fields.attachments[0].kind == Some(Audio))
        || (|uploads| > 0 && Text.Includes(uploads[0].file.mime, "audio"))
      else
        var fw := fields.forwarded.value.attachments.GetOr([]);
        |fw| > 0 && fw[0].kind == Some(Audio)
    }

    /** `bubbleType`: system, then deleted, then sticker, then audio, else default. */
    function BubbleType(): (b: Bubble)
      reads this
      ensures b == SystemBubble <==> fields.system
      ensures b == DeletedBubble <==> !fields.system && fields.deleted
      ensures b == StickerBubble <==> !fields.system && !fields.deleted && IsSticker()
      ensures b == AudioBubble <==> !fields.system && !fields.deleted && !IsSticker() && IsAudio()
    {
      if fields.system then SystemBubble
      else if fields.deleted then DeletedBubble
      else if IsSticker() then StickerBubble
      else if IsAudio() then AudioBubble
      else DefaultBubble
    }

    /** `isCheckable`: only messages that are neither system messages nor deleted can be selected. */
    function IsCheckable(): (r: bool)
      reads this
      ensures r <==> !fields.system && !fields.deleted
    {
      var b := BubbleType();
      b == StickerBubble || b == DefaultBubble || b == AudioBubble
    }

    /** `splitedAttachs`. */
    method SplitedAttachs() returns (s: SplitedAttachmentsModule.SplitedAttachments)
      ensures fresh(s)
      ensures forall t :: s.Bucket(t) == SplitedAttachmentsModule.OfKind(fields.attachments, t)
    {
      s := SplitedAttachmentsModule.CreateBy(fields.attachments);
    }

    // -------------------------------------------------------------------------
    // setters

    method SetBody(b: string)
      modifies this
      ensures State() == old(State()).(fields := old(fields).(body := b))
    {
      fields := fields.(body := b);
    }

    /** `setReaded`: the message is no longer unread. */
    method SetReaded()
      modifies this
      ensures State() == old(State()).(fields := old(fields).(unread := Some(false)))
    {
      fields := fields.(unread := Some(false));
    }

    /** `setDeleted`: the message is marked deleted and its text replaced by the fixed notice. */
    method SetDeleted()
      modifies this
      ensures State() == old(State()).(fields := old(fields).(deleted := true, body := DeletedText))
    {
      fields := fields.(deleted := true, body := DeletedText);
    }

    /** `setID`: the server id replaces the local one. */
    method SetId(newId: string)
      modifies this
      ensures State() == old(State()).(fields := old(fields).(id := newId)) && emotions == old(emotions)
    {
      fields := fields.(id := newId);
    }

    method MarkSending(value: bool)
      modifies this
      ensures State() == old(State()).(sending := value) && emotions == old(emotions)
    {
      sending := value;
    }

    method MarkError(e: ErrorState)
      modifies this
      ensures State() == old(State()).(error := e) && emotions == old(emotions)
    {
      error := e;
    }

    method SetForward(m: Option<MessageData>)
      requires m.Some? ==> Normal(m.value)
      modifies this
      ensures State() == old(State()).(fields := old(fields).(forwarded := m))
    {
      fields := fields.(forwarded := m);
    }

    method SetAttachment(atts: seq<Attachment>)
      modifies this
      ensures State() == old(State()).(fields := old(fields).(attachments := atts))
    {
      fields := fields.(attachments := atts);
    }

    method SetUploads(us: seq<Loaders.Upload>)
      modifies this
      ensures State() == old(State()).(uploads := us)
    {
      uploads := us;
    }

    // -------------------------------------------------------------------------
    // reactions

    /**
     * `toggleReactions(u, e)`: the aggregates change as `Reactions.Toggle` describes, which keeps
     * each user in at most one aggregate and drops aggregates that become empty.
     */
    method ToggleReactions(u: string, e: string)
      requires Valid()
      modifies this, set i | 0 <= i < |emotions| :: emotions[i]
      ensures Valid()
      ensures State() == old(State()).(reactions := Agg.Toggle(old(Reactions()), u, e))
    {
      var rs := Reactions();
      var ci := Agg.IndexOfUser(rs, u);
      var ti := Agg.IndexOfEmoji(rs, e);
      if ti != -1 && ci != -1 && ti == ci {
        ToggleOwn(ti, u);
      } else {
        MoveReaction(ci, ti, u, e);
      }
    }

    /** `u` withdraws the reaction they already gave with the aggregate at `i`. */
    method ToggleOwn(i: nat, u: string)
      requires Valid() && i < |emotions|
      modifies this, emotions[i]
      ensures Valid()
      ensures State() == old(State()).(reactions :=
        var r := Agg.WithoutAt(old(Reactions()), i, u); if |r[i].users| == 0 then Agg.RemoveAt(r, i) else r)
    {
      DeleteAt(i, u);
      if emotions[i].IsEmpty() {
        RemoveEmotionAt(i);
      }
    }

    /**
     * `u` leaves the aggregate at `ci` (if any), joins the aggregate at `ti` (or a new one for
     * `e`), and the first of the two that became empty is dropped.
     */
    method MoveReaction(ci: int, ti: int, u: string, e: string)
      requires Valid() && -1 <= ci < |emotions| && -1 <= ti < |emotions|
      modifies this, set i | 0 <= i < |emotions| :: emotions[i]
      ensures Valid()
      ensures State() == old(State()).(reactions := Agg.Prune(Agg.Join(Agg.Leave(old(Reactions()), ci, u), ti, u, e), ci, ti))
    {
      ghost var rs := Reactions();
      if ci != -1 {
        DeleteAt(ci, u);
      }
      ghost var r1 := Reactions();
      assert r1 == Agg.Leave(rs, ci, u);
      if ti != -1 {
        ToggleAt(ti, u);
      } else {
        PushEmotion(e, u);
      }
      ghost var r2 := Reactions();
      assert r2 == Agg.Join(r1, ti, u, e);
      if ci != -1 && emotions[ci].IsEmpty() {
        RemoveEmotionAt(ci);
      } else if ti != -1 && emotions[ti].IsEmpty() {
        RemoveEmotionAt(ti);
      }
    }

    /** `u` leaves the aggregate at `i`. */
    method DeleteAt(i: nat, u: string)
      requires Valid() && i < |emotions|
      modifies emotions[i]
      ensures Valid()
      ensures Reactions() == Agg.WithoutAt(old(Reactions()), i, u)
    {
      emotions[i].Delete(u);
    }

    /** `u` is toggled in the aggregate at `i`. */
    method ToggleAt(i: nat, u: string)
      requires Valid() && i < |emotions|
      modifies emotions[i]
      ensures Valid()
      ensures Reactions() == Agg.ToggleAt(old(Reactions()), i, u)
    {
      emotions[i].Toggle(u);
    }

    /** A new aggregate holding only `u` is pushed for `e`. */
    method PushEmotion(e: string, u: string)
      requires Valid()
      modifies this
      ensures Valid()
      ensures State() == old(State()).(reactions := old(Reactions()) + [EmotionData(e, [u])])
    {
      var created := new Emotion(EmotionData(e, [u]));
      assert Dedup([u]) == [u];
      emotions := emotions + [created];
    }

    /** The aggregate at `i` is dropped. */
    method RemoveEmotionAt(i: nat)
      requires Valid() && i < |emotions|
      modifies this
      ensures Valid()
      ensures State() == old(State()).(reactions := Agg.RemoveAt(old(Reactions()), i))
    {
      emotions := emotions[..i] + emotions[i + 1..];
    }

    // -------------------------------------------------------------------------
    // uploads

    /** `stopUploads`: every pending upload's loader is stopped. */
    method StopUploads()
      modifies set i | 0 <= i < |uploads| :: uploads[i].loader
      ensures forall i :: 0 <= i < |uploads| ==> !uploads[i].loader.StopActs()
      ensures forall i :: 0 <= i < |uploads| ==> var l := uploads[i].loader;
        l.reject == old(l.reject) && l.current == old(l.current) && l.progress == old(l.progress)
        && (l.status == old(l.status) || l.status == Loaders.Hold)
    {
      var i := 0;
      while i < |uploads|
        invariant 0 <= i <= |uploads|
        invariant forall k :: 0 <= k < i ==> !uploads[k].loader.StopActs()
        invariant forall k :: 0 <= k < |uploads| ==> var l := uploads[k].loader;
          l.reject == old(l.reject) && l.current == old(l.current) && l.progress == old(l.progress)
          && (l.status == old(l.status) || l.status == Loaders.Hold)
      {
        var _ := uploads[i].loader.Stop();
        i := i + 1;
      }
    }

    /** The attachment cached on each pending upload. */
    function Cached(): (c: seq<Option<Attachment>>)
      reads this, set i | 0 <= i < |uploads| :: uploads[i]
      ensures |c| == |uploads|
      ensures forall i :: 0 <= i < |c| ==> c[i] == uploads[i].attachment
    {
      CachedOf(uploads)
    }

    predicate UploadsDistinct()
      reads this
    {
      forall i, j :: 0 <= i < j < |uploads| ==> uploads[i] != uploads[j]
    }

    /**
     * The synchronous start of `startUploads`: with pending uploads, the message is marked
     * loading and every loader is stopped. Returns whether there was anything to upload.
     */
    method BeginUploads() returns (started: bool)
      modifies this, set i | 0 <= i < |uploads| :: uploads[i].loader
      ensures started <==> |uploads| > 0
      ensures State() == if started then old(State()).(isLoading := true) else old(State())
      ensures forall i :: 0 <= i < |uploads| ==> !uploads[i].loader.StopActs()
    {
      started := |uploads| > 0;
      if started {
        isLoading := true;
        StopUploads();
      }
    }

    /**
     * The rest of `startUploads`, given `answer(i)`, what starting upload `i` would give:
     * uploads are taken in order, a cached attachment is reused, and the first failure stops
     * the loop. On success the uploads are replaced by the attachments; on failure the
     * uploads stay, the error is recorded and returned.
     */
    method FinishUploads(answer: nat -> Result<Attachment>) returns (failure: Option<Failure>)
      requires UploadsDistinct()
      modifies this, set i | 0 <= i < |uploads| :: uploads[i]
      ensures var o := Loads(Resolve(old(Cached()), answer));
        o.Ok? ==> failure == None && State() == old(State()).(fields := old(fields).(attachments := o.value), uploads := [], isLoading := false)
      ensures var o := Loads(Resolve(old(Cached()), answer));
        o.Err? ==> failure == Some(o.error) && State() == old(State()).(isLoading := false, error := Raised(o.error))
      ensures var rs := Resolve(old(Cached()), answer); Loads(rs).Err? ==>
        forall k :: 0 <= k < |uploads| ==> uploads[k].attachment == if OkThrough(rs, k) then Some(rs[k].value) else old(uploads[k].attachment)
    {
      ghost var before := State();
      ghost var us, rs := uploads, Resolve(Cached(), answer);
      var outcome := LoadAll(uploads, answer);
      assert State() == before;
      ghost var cached := CachedOf(us);
      failure := Conclude(outcome);
      assert forall k :: 0 <= k < |us| ==> us[k].attachment == cached[k];
    }

    /**
     * How `startUploads` ends for the `outcome` of its loop: loading stops; on success the
     * uploads are replaced by the attachments, on failure the error is recorded and returned.
     */
    method Conclude(outcome: Result<seq<Attachment>>) returns (failure: Option<Failure>)
      modifies this
      ensures outcome.Ok? ==> failure == None && State() == old(State()).(fields := old(fields).(attachments := outcome.value), uploads := [], isLoading := false)
      ensures outcome.Err? ==> failure == Some(outcome.error) && State() == old(State()).(isLoading := false, error := Raised(outcome.error))
    {
      isLoading := false;
      match outcome
      case Ok(atts) =>
        uploads := [];
        fields := fields.(attachments := atts);
        failure := None;
      case Err(f) =>
        error := Raised(f);
        failure := Some(f);
    }

    /** `startUploads` with no await in between: the begin and finish steps in a row. */
    method StartUploads(answer: nat -> Result<Attachment>) returns (failure: Option<Failure>)
      requires UploadsDistinct()
      modifies this, set i | 0 <= i < |uploads| :: uploads[i], set i | 0 <= i < |uploads| :: uploads[i].loader
      ensures old(|uploads|) == 0 ==> failure == None && State() == old(State())
      ensures var o := Loads(Resolve(old(Cached()), answer));
        old(|uploads|) > 0 && o.Ok? ==>
          failure == None && State() == old(State()).(fields := old(fields).(attachments := o.value), uploads := [], isLoading := false)
      ensures var o := Loads(Resolve(old(Cached()), answer));
        old(|uploads|) > 0 && o.Err? ==> failure == Some(o.error) && State() == old(State()).(isLoading := false, error := Raised(o.error))
    {
      var started := BeginUploads();
      failure := None;
      if started {
        failure := FinishUploads(answer);
      }
    }
  }

  /** The uploads up to and including `k` all resolve to an attachment. */
  predicate OkThrough(rs: seq<Result<Attachment>>, k: int) {
    forall j :: 0 <= j <= k && j < |rs| ==> rs[j].Ok?
  }

  /**
   * The loop of `startUploads`: each upload in turn gives its cached attachment or, when it has
   * none, the answer of starting it, which is then cached; the first failure ends the loop.
   * Every upload before the first failure ends up holding its attachment; from the first
   * failure on, no upload changes.
   */
  method LoadAll(us: seq<Loaders.Upload>, answer: nat -> Result<Attachment>) returns (outcome: Result<seq<Attachment>>)
    requires forall i, j :: 0 <= i < j < |us| ==> us[i] != us[j]
    modifies set i | 0 <= i < |us| :: us[i]
    ensures outcome == Loads(Resolve(old(CachedOf(us)), answer))
    ensures var rs := Resolve(old(CachedOf(us)), answer);
      forall k :: 0 <= k < |us| ==> us[k].attachment == if OkThrough(rs, k) then Some(rs[k].value) else old(us[k].attachment)
  {
    ghost var cached := CachedOf(us);
    ghost var rs := Resolve(cached, answer);
    var atts: seq<Attachment> := [];
    var i := 0;
    while i < |us|
      invariant 0 <= i <= |us|
      invariant Loads(rs[..i]) == Ok(atts)
      invariant OkThrough(rs, i - 1)
      invariant forall k :: 0 <= k < i ==> us[k].attachment == Some(rs[k].value)
      invariant forall k :: i <= k < |us| ==> us[k].attachment == cached[k]
    {
      var upload := us[i];
      LoadsStep(rs, i);
      if upload.attachment.Some? {
        assert rs[i] == Ok(upload.attachment.value);
        atts := atts + [upload.attachment.value];
      } else {
        match answer(i)
        case Ok(a) =>
          upload.Resolve(a);
          atts := atts + [a];
        case Err(f) =>
          LoadsTakeErr(rs, i + 1);
          assert forall k :: i <= k < |us| ==> !OkThrough(rs, k);
          return Err(f);
      }
      i := i + 1;
    }
    assert rs[..i] == rs;
    return Ok(atts);
  }

  function CachedOf(us: seq<Loaders.Upload>): (c: seq<Option<Attachment>>)
    reads set i | 0 <= i < |us| :: us[i]
    ensures |c| == |us|
    ensures forall i :: 0 <= i < |c| ==> c[i] == us[i].attachment
  {
    if us == [] then [] else [us[0].attachment] + CachedOf(us[1..])
  }

  /** What each upload resolves to: its cached attachment, else the answer of starting it. */
  function Resolve(cached: seq<Option<Attachment>>, answer: nat -> Result<Attachment>): (r: seq<Result<Attachment>>)
    ensures |r| == |cached|
    ensures forall i :: 0 <= i < |r| ==> r[i] == if cached[i].Some? then Ok(cached[i].value) else answer(i)
  {
    seq(|cached|, i requires 0 <= i < |cached| => if cached[i].Some? then Ok(cached[i].value) else answer(i))
  }

  /** The result of the sequential loop: all attachments in order, or the first failure. */
  function Loads(rs: seq<Result<Attachment>>): Result<seq<Attachment>> {
    if rs == [] then Ok([])
    else if rs[0].Err? then Err(rs[0].error)
    else match Loads(rs[1..])
      case Ok(xs) => Ok([rs[0].value] + xs)
      case Err(f) => Err(f)
  }

  /** Success gives every answer in order; failure is the first failed answer. */
  lemma {:induction false} LoadsMeaning(rs: seq<Result<Attachment>>)
    ensures Loads(rs).Ok? ==> |Loads(rs).value| == |rs| && forall i :: 0 <= i < |rs| ==> rs[i] == Ok(Loads(rs).value[i])
    ensures Loads(rs).Err? <==> exists i :: 0 <= i < |rs| && rs[i].Err?
    ensures Loads(rs).Err? ==> exists i :: 0 <= i < |rs| && rs[i] == Err(Loads(rs).error) && forall k :: 0 <= k < i ==> rs[k].Ok?
    decreases |rs|
  {
    if rs != [] && rs[0].Ok? {
      LoadsMeaning(rs[1..]);
      if Loads(rs[1..]).Err? {
        var i :| 0 <= i < |rs[1..]| && rs[1..][i] == Err(Loads(rs[1..]).error) && forall k :: 0 <= k < i ==> rs[1..][k].Ok?;
        assert rs[i + 1] == Err(Loads(rs).error);
        assert forall k :: 0 <= k < i + 1 ==> rs[k].Ok? by {
          forall k | 0 <= k < i + 1 ensures rs[k].Ok? {
            if k > 0 {
              assert rs[k] == rs[1..][k - 1];
            }
          }
        }
      } else {
        assert forall i :: 1 <= i < |rs| ==> rs[i] == rs[1..][i - 1];
      }
    } else if rs != [] {
      assert rs[0] == Err(Loads(rs).error);
    }
  }

  lemma {:induction false} LoadsSnoc(rs: seq<Result<Attachment>>, x: Result<Attachment>)
    ensures Loads(rs + [x]) ==
      if Loads(rs).Err? then Loads(rs)
      else if x.Err? then Err(x.error)
      else Ok(Loads(rs).value + [x.value])
    decreases |rs|
  {
    if rs == [] {
      assert [x][1..] == [];
      assert rs + [x] == [x];
      if x.Ok? {
        assert [x.value] + [] == [] + [x.value];
      }
    } else {
      assert (rs + [x])[0] == rs[0];
      assert (rs + [x])[1..] == rs[1..] + [x];
      if rs[0].Ok? {
        LoadsSnoc(rs[1..], x);
        assert Loads(rs + [x]) == match Loads(rs[1..] + [x])
          case Ok(xs) => Ok([rs[0].value] + xs)
          case Err(f) => Err(f);
        if Loads(rs[1..]).Ok? && x.Ok? {
          assert [rs[0].value] + (Loads(rs[1..]).value + [x.value]) == ([rs[0].value] + Loads(rs[1..]).value) + [x.value];
        }
      }
    }
  }

  lemma {:induction false} LoadsPrefixErr(rs: seq<Result<Attachment>>, rest: seq<Result<Attachment>>)
    requires Loads(rs).Err?
    ensures Loads(rs + rest) == Loads(rs)
    decreases |rs|
  {
    if rs[0].Ok? {
      assert (rs + rest)[1..] == rs[1..] + rest;
      LoadsPrefixErr(rs[1..], rest);
    }
  }

  /** One more answer of the loop, stated on prefixes of all the answers. */
  lemma LoadsStep(rs: seq<Result<Attachment>>, i: nat)
    requires i < |rs|
    ensures Loads(rs[..i + 1]) ==
      if Loads(rs[..i]).Err? then Loads(rs[..i])
      else if rs[i].Err? then Err(rs[i].error)
      else Ok(Loads(rs[..i]).value + [rs[i].value])
  {
    assert rs[..i + 1] == rs[..i] + [rs[i]];
    LoadsSnoc(rs[..i], rs[i]);
  }

  /** A failure among the first `n` answers is the result of all of them. */
  lemma LoadsTakeErr(rs: seq<Result<Attachment>>, n: nat)
    requires n <= |rs| && Loads(rs[..n]).Err?
    ensures Loads(rs) == Loads(rs[..n])
  {
    LoadsPrefixErr(rs[..n], rs[n..]);
    assert rs[..n] + rs[n..] == rs;
  }

  // ---------------------------------------------------------------------------
  // factories and comparisons

  /**
   * `Message.create(sender, roomId, body, attachments, forwarded)`, with the generated id and the
   * current time given: a fresh, undeleted, unedited, unread message with an empty keyboard.
   */
  method Create(sender: Sender, roomId: string, body: string, attachments: seq<Attachment>,
                forwarded: Option<MessageData>, newId: string, now: int) returns (m: Message)
    ensures fresh(m) && m.Valid()
    ensures m.fields == MessageFields(newId, false, false, attachments, body,
      if forwarded.Some? then Some(Normalize(forwarded.value)) else None, Some(Keyboard(false, false, [])),
      now, false, [], roomId, sender, now, None, [], Some(true))
    ensures m.Reactions() == []
    ensures !m.sending && m.error == NoError && m.uploads == [] && !m.isLoading
  {
    m := new Message(MessageData(newId, Some(false), false, Some(attachments), Some(body), forwarded,
      Some(Keyboard(false, false, [])), now, Some(false), Some([]), roomId, sender, now, None, Some([]),
      Some(true), None));
  }

  /** `asForward`: a pure forward gives its forwarded message, any other message a copy of itself without one. */
  method AsForward(m: Message) returns (r: Message)
    requires m.Valid()
    ensures fresh(r) && r.Valid()
    ensures r.Data() == if m.LayoutType() == Forward then m.fields.forwarded.value else m.Data().(forwarded := None)
    ensures !r.sending && r.error == NoError && r.uploads == [] && !r.isLoading
  {
    if m.LayoutType() == Forward {
      var d := m.fields.forwarded.value;
      NormalizeNormal(d);
      r := new Message(d);
    } else {
      var d := m.Data().(forwarded := None);
      m.DataNormal();
      NormalizeNormal(d);
      r := new Message(d);
    }
  }

  /** The attachment comparison the reconciliation relies on: same length and the same ids in order. */
  predicate SameAttachments(a: seq<Attachment>, b: seq<Attachment>) {
    |a| == |b| && forall i :: 0 <= i < |a| ==> a[i].id == b[i].id
  }

  /**
   * `Message.compareAttachment(m1, m2)`: lists of different length differ; otherwise every pair
   * of equal indices is compared by id in a nested loop.
   */
  method CompareAttachment(m1: Message, m2: Message) returns (result: bool)
    ensures result <==> SameAttachments(m1.fields.attachments, m2.fields.attachments)
  {
    result := true;
    var a, b := m1.fields.attachments, m2.fields.attachments;
    if |a| == |b| {
      var i := 0;
      while i < |a|
        invariant 0 <= i <= |a|
        invariant result <==> forall k :: 0 <= k < i ==> a[k].id == b[k].id
      {
        var j := 0;
        ghost var before := result;
        while j < |b|
          invariant 0 <= j <= |b|
          invariant result <==> before && (i < j ==> a[i].id == b[i].id)
        {
          if i == j && a[i].id != b[j].id {
            result := false;
          }
          j := j + 1;
        }
        i := i + 1;
      }
    } else {
      result := false;
    }
  }

  /**
   * `Message.compareBody`: both bodies empty, or equal. The "both empty" case adds nothing:
   * bodies match exactly when they are equal.
   */
  function CompareBody(m1: Message, m2: Message): (r: bool)
    reads m1, m2
    ensures r <==> m1.fields.body == m2.fields.body
  {
    (m1.fields.body == "" && m2.fields.body == "") || m1.fields.body == m2.fields.body
  }

  /** `Message.compareSender`: the two messages come from the same sender. */
  function CompareSender(m1: Message, m2: Message): (r: bool)
    reads m1, m2
    ensures r <==> m1.fields.sender.id == m2.fields.sender.id
  {
    m1.fields.sender.id == m2.fields.sender.id
  }

  /** `Message.compareForwarded`: the forwarded ids agree, two messages without one included. */
  function CompareForwarded(m1: Message, m2: Message): (r: bool)
    reads m1, m2
    ensures m1.fields.forwarded.None? && m2.fields.forwarded.None? ==> r
    ensures m1.fields.forwarded.Some? && m2.fields.forwarded.Some? ==> (r <==> m1.fields.forwarded.value.id == m2.fields.forwarded.value.id)
    ensures m1.fields.forwarded.Some? != m2.fields.forwarded.Some? ==> !r
  {
    (if m1.fields.forwarded.Some? then Some(m1.fields.forwarded.value.id) else None)
      == (if m2.fields.forwarded.Some? then Some(m2.fields.forwarded.value.id) else None)
  }

  /** `Message.byId(id)`. */
  function ById(id: string, m: Message): (r: bool)
    reads m
    ensures r <==> m.fields.id == id
  {
    m.fields.id == id
  }

  /** `Message.equal(m1, flag)(m2)`: identity compared against `flag`, negated. */
  function Equal(m1: Message, flag: bool, m2: Message): (r: bool)
    ensures r <==> if flag then m1 != m2 else m1 == m2
  {
    (m1 != m2) == flag
  }

  /** `Message.bySenderID(senderID, flag)`. */
  function BySenderId(senderId: string, flag: bool, m: Message): (r: bool)
    reads m
    ensures flag ==> (r <==> m.fields.sender.id == senderId)
    ensures !flag ==> (r <==> m.fields.sender.id != senderId)
  {
    (m.fields.sender.id == senderId) == flag
  }
}
