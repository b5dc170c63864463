/** Attachments of a message grouped by type, and the caption of the group (SplitedAttachments.ts). */
module SplitedAttachmentsModule {
  import opened Wrappers
  import Text
  import opened Attachments

  /** The attachments of type `t`, in input order. */
  function OfKind(xs: seq<Attachment>, t: AttachmentType): seq<Attachment> {
    if xs == [] then []
    else (if xs[0].kind == Some(t) then [xs[0]] else []) + OfKind(xs[1..], t)
  }

  /** A bucket holds only attachments of its type, all taken from the input. */
  lemma {:induction false} OfKindMembers(xs: seq<Attachment>, t: AttachmentType)
    ensures |OfKind(xs, t)| <= |xs|
    ensures forall a :: a in OfKind(xs, t) ==> a in xs && a.kind == Some(t)
    decreases |xs|
  {
    if xs != [] {
      OfKindMembers(xs[1..], t);
    }
  }

  /** The attachments that have a type. */
  function Typed(xs: seq<Attachment>): nat {
    if xs == [] then 0 else (if xs[0].kind.Some? then 1 else 0) + Typed(xs[1..])
  }

  lemma {:induction false} OfKindSnoc(xs: seq<Attachment>, x: Attachment, t: AttachmentType)
    ensures OfKind(xs + [x], t) == OfKind(xs, t) + (if x.kind == Some(t) then [x] else [])
    decreases |xs|
  {
    if xs == [] {
      assert [x][1..] == [];
    } else {
      var head, last := if xs[0].kind == Some(t) then [xs[0]] else [], if x.kind == Some(t) then [x] else [];
      assert (xs + [x])[0] == xs[0] && (xs + [x])[1..] == xs[1..] + [x];
      OfKindSnoc(xs[1..], x, t);
      assert head + (OfKind(xs[1..], t) + last) == (head + OfKind(xs[1..], t)) + last;
    }
  }

  /** Every typed attachment lands in exactly one bucket: the bucket sizes add up to `Typed`. */
  lemma {:induction false} BucketsPartition(xs: seq<Attachment>)
    ensures |OfKind(xs, Video)| + |OfKind(xs, Image)| + |OfKind(xs, File)|
      + |OfKind(xs, Sticker)| + |OfKind(xs, Audio)| == Typed(xs)
    decreases |xs|
  {
    if xs != [] {
      BucketsPartition(xs[1..]);
      forall t ensures |OfKind(xs, t)| == (if xs[0].kind == Some(t) then 1 else 0) + |OfKind(xs[1..], t)| {
      }
      match xs[0].kind
      case None =>
      case Some(k) =>
        assert Typed(xs) == 1 + Typed(xs[1..]);
        match k
        case Video =>
        case Image =>
        case File =>
        case Sticker =>
        case Audio =>
    }
  }

  class SplitedAttachments {
    var video: seq<Attachment>
    var image: seq<Attachment>
    var file: seq<Attachment>
    var sticker: seq<Attachment>
    var audio: seq<Attachment>

    constructor ()
      ensures video == [] && image == [] && file == [] && sticker == [] && audio == []
    {
      video, image, file, sticker, audio := [], [], [], [], [];
    }

    function Bucket(t: AttachmentType): seq<Attachment>
      reads this
    {
      match t
      case Video => video
      case Image => image
      case File => file
      case Sticker => sticker
      case Audio => audio
    }

    /** `reducer`: a typed attachment is pushed onto its bucket; an untyped one is skipped. */
    method Reduce(attach: Attachment)
      modifies this
      ensures forall t :: Bucket(t) == old(Bucket(t)) + (if attach.kind == Some(t) then [attach] else [])
    {
      if attach.kind.Some? {
        match attach.kind.value
        case Video => video := video + [attach];
        case Image => image := image + [attach];
        case File => file := file + [attach];
        case Sticker => sticker := sticker + [attach];
        case Audio => audio := audio + [attach];
      }
    }

    /** `length`: the count of every bucket, in the fixed order video, image, file, sticker, audio. */
    function Length(): (r: seq<(AttachmentType, nat)>)
      reads this
      ensures |r| == 5
      ensures r[0].0 == Video && r[1].0 == Image && r[2].0 == File && r[3].0 == Sticker && r[4].0 == Audio
      ensures forall i :: 0 <= i < 5 ==> r[i].1 == |Bucket(r[i].0)|
    {
      [(Video, |video|), (Image, |image|), (File, |file|), (Sticker, |sticker|), (Audio, |audio|)]
    }

    /** No bucket holds anything. */
    predicate AllEmpty()
      reads this
    {
      video == [] && image == [] && file == [] && sticker == [] && audio == []
    }

    /** The entries of `length` with a non-zero count. */
    function NonEmpty(): (r: seq<(AttachmentType, nat)>)
      reads this
      ensures forall i :: 0 <= i < |r| ==> r[i].1 > 0 && r[i].1 == |Bucket(r[i].0)|
      ensures |r| == 0 <==> AllEmpty()
      ensures |r| <= 5
    {
      var l := Length();
      (if l[0].1 > 0 then [l[0]] else []) + (if l[1].1 > 0 then [l[1]] else [])
        + (if l[2].1 > 0 then [l[2]] else []) + (if l[3].1 > 0 then [l[3]] else [])
        + (if l[4].1 > 0 then [l[4]] else [])
    }

    /**
     * `discription`: nothing for no attachments, the type's own label for a single kind, and
     * otherwise the number of kinds with the plural of "attachment".
     */
    function Discription(): (d: string)
      reads this
      ensures d == "" <==> AllEmpty()
      ensures |NonEmpty()| == 1 ==> d == GetName(TypeName(NonEmpty()[0].0), NonEmpty()[0].1)
      ensures 2 <= |NonEmpty()| <= 4 ==> d == "📎" + Text.IntToString(|NonEmpty()|) + " вложения"
      ensures |NonEmpty()| == 5 ==> d == "📎5 вложений"
    {
      var kinds := NonEmpty();
      if |kinds| == 0 then ""
      else if |kinds| == 1 then
        assert GetName(TypeName(kinds[0].0), kinds[0].1) != "" by {
          var n := Text.IntToString(kinds[0].1);
          assert |n| > 0;
        }
        GetName(TypeName(kinds[0].0), kinds[0].1)
      else
        var word := Text.Declension(|kinds|, "вложение", "вложения", "вложений");
        assert word == if |kinds| == 5 then "вложений" else "вложения";
        "📎" + Text.IntToString(|kinds|) + " " + word
    }
  }

  /** `SplitedAttachments.createBy(attachments)`: each bucket holds its type's attachments in order. */
  method CreateBy(attachments: seq<Attachment>) returns (r: SplitedAttachments)
    ensures fresh(r)
    ensures forall t :: r.Bucket(t) == OfKind(attachments, t)
  {
    r := new SplitedAttachments();
    var i := 0;
    while i < |attachments|
      invariant 0 <= i <= |attachments|
      invariant forall t :: r.Bucket(t) == OfKind(attachments[..i], t)
    {
      forall t ensures OfKind(attachments[..i + 1], t) == OfKind(attachments[..i], t)
        + (if attachments[i].kind == Some(t) then [attachments[i]] else [])
      {
        assert attachments[..i + 1] == attachments[..i] + [attachments[i]];
        OfKindSnoc(attachments[..i], attachments[i], t);
      }
      r.Reduce(attachments[i]);
      i := i + 1;
    }
    assert attachments[..i] == attachments;
  }
}
