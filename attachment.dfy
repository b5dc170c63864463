/**
 * Attachment descriptors, the chunking helper and the label chosen for a group of
 * attachments of one type (core/attachment/Attachment.ts).
 */
module Attachments {
  import opened Wrappers
  import Text

  /** The five values of `IAttachment["type"]`. */
  datatype AttachmentType = Audio | Video | Image | File | Sticker

  /** The string the source uses for each type. */
  function TypeName(t: AttachmentType): string {
    match t
    case Audio => "audio"
    case Video => "video"
    case Image => "image"
    case File => "file"
    case Sticker => "sticker"
  }

  /**
   * An uploaded attachment (`IAttachment`). Only the fields the engine reads are kept;
   * `kind` is optional because the grouping code guards against a missing type.
   */
  datatype Attachment = Attachment(id: string, kind: Option<AttachmentType>, filename: string, link: string)

  // ---------------------------------------------------------------------------
  // split

  /** Specification of `split`: consecutive chunks of `size` elements, the last one possibly shorter. */
  function Chunks<T>(xs: seq<T>, size: nat): seq<seq<T>>
    requires size > 0
    decreases |xs|
  {
    if |xs| <= size then (if xs == [] then [] else [xs])
    else [xs[..size]] + Chunks(xs[size..], size)
  }

  function Flatten<T>(xss: seq<seq<T>>): seq<T> {
    if xss == [] then [] else xss[0] + Flatten(xss[1..])
  }

  /**
   * `Attachment.split(objects, by)`: element `index` is pushed onto chunk `Math.trunc(index / by)`,
   * which is created when it does not exist yet.
   */
  method Split<T>(objects: seq<T>, size: nat) returns (acc: seq<seq<T>>)
    requires size > 0
    ensures acc == Chunks(objects, size)
  {
    acc := [];
    var index := 0;
    while index < |objects|
      invariant 0 <= index <= |objects|
      invariant acc == Chunks(objects[..index], size)
    {
      var obj := objects[index];
      var accIndex := index / size;
      ChunksCount(objects[..index], size);
      ChunksSnoc(objects[..index], obj, size);
      assert objects[..index + 1] == objects[..index] + [obj];
      if accIndex < |acc| {
        acc := acc[accIndex := acc[accIndex] + [obj]];
      } else {
        assert accIndex == |acc|;
        acc := acc + [[obj]];
      }
      index := index + 1;
    }
    assert objects[..index] == objects;
  }

  lemma MulAtLeast(a: int, size: int)
    requires a >= 1 && size > 0
    ensures a * size >= size
  {
    var k := a - 1;
    assert k * size >= 0;
    assert a * size == k * size + size;
  }

  lemma DivMod(q: int, r: int, size: int)
    requires size > 0 && 0 <= r < size
    ensures (q * size + r) / size == q && (q * size + r) % size == r
  {
    var n := q * size + r;
    var d, m := n / size, n % size;
    assert n == d * size + m;
    assert (d - q) * size == r - m;
    if d > q {
      MulAtLeast(d - q, size);
    } else if d < q {
      MulAtLeast(q - d, size);
    }
  }

  lemma DivModShift(n: nat, size: nat)
    requires size > 0
    ensures (n + size) / size == n / size + 1 && (n + size) % size == n % size
  {
    assert n + size == (n / size + 1) * size + n % size;
    DivMod(n / size + 1, n % size, size);
  }

  /** The number of chunks is `ceil(|xs| / size)`. */
  lemma {:induction false} ChunksCount<T>(xs: seq<T>, size: nat)
    requires size > 0
    ensures |Chunks(xs, size)| == if |xs| % size == 0 then |xs| / size else |xs| / size + 1
    decreases |xs|
  {
    if |xs| <= size {
      if |xs| == size {
        DivMod(1, 0, size);
      } else {
        DivMod(0, |xs|, size);
      }
    } else {
      ChunksCount(xs[size..], size);
      DivModShift(|xs| - size, size);
    }
  }

  /** Appending one element either opens a new chunk or grows the last one. */
  lemma {:induction false} ChunksSnoc<T>(xs: seq<T>, x: T, size: nat)
    requires size > 0
    ensures var c := Chunks(xs, size);
      Chunks(xs + [x], size) ==
        if |xs| % size == 0 then c + [[x]] else c[..|c| - 1] + [c[|c| - 1] + [x]]
    decreases |xs|
  {
    ChunksCount(xs, size);
    if |xs| < size {
      DivMod(0, |xs|, size);
      assert |xs + [x]| <= size;
      assert Chunks(xs + [x], size) == [xs + [x]];
      if xs != [] {
        assert Chunks(xs, size) == [xs];
      } else {
        assert xs + [x] == [x];
      }
    } else if |xs| == size {
      DivMod(1, 0, size);
      assert (xs + [x])[..size] == xs && (xs + [x])[size..] == [x];
    } else {
      var rest := xs[size..];
      assert (xs + [x])[..size] == xs[..size];
      assert (xs + [x])[size..] == rest + [x];
      ChunksSnoc(rest, x, size);
      DivModShift(|rest|, size);
      ChunksCount(rest, size);
    }
  }

  /** Concatenating the chunks gives back the input. */
  lemma {:induction false} ChunksFlatten<T>(xs: seq<T>, size: nat)
    requires size > 0
    ensures Flatten(Chunks(xs, size)) == xs
    decreases |xs|
  {
    if |xs| > size {
      ChunksFlatten(xs[size..], size);
      assert xs == xs[..size] + xs[size..];
    }
  }

  /** Element `i` lands in chunk `i / size` at position `i % size`. */
  lemma {:induction false} ChunksAt<T>(xs: seq<T>, size: nat, i: nat)
    requires size > 0 && i < |xs|
    ensures var c := Chunks(xs, size);
      i / size < |c| && i % size < |c[i / size]| && c[i / size][i % size] == xs[i]
    decreases |xs|
  {
    if i < size {
      DivMod(0, i, size);
    } else {
      ChunksAt(xs[size..], size, i - size);
      DivModShift(i - size, size);
    }
  }

  /** Every chunk but the last holds exactly `size` elements; the last holds 1 to `size`. */
  lemma {:induction false} ChunksSizes<T>(xs: seq<T>, size: nat)
    requires size > 0
    ensures var c := Chunks(xs, size);
      (c == [] <==> xs == []) &&
      (forall k :: 0 <= k < |c| - 1 ==> |c[k]| == size) &&
      (c != [] ==> 1 <= |c[|c| - 1]| <= size)
    decreases |xs|
  {
    if |xs| > size {
      ChunksSizes(xs[size..], size);
    }
  }

  // ---------------------------------------------------------------------------
  // getName

  /** `Attachment.getName(type, length)`: the label of `length` attachments of one type. */
  function GetName(kind: string, length: int): (name: string)
    ensures kind == "sticker" ==> name == "🌄 Стикер"
    ensures kind == "audio" ==> name == "🔈 Аудиосообщение"
    ensures length == 1 && kind == "file" ==> name == "📎 Фаил"
    ensures length == 1 && kind == "image" ==> name == "🌄 Изображение"
    ensures length == 1 && kind == "video" ==> name == "📹 Видео"
    ensures length != 1 && kind == "file" ==>
      name == "📎 " + Text.IntToString(length) + " " + Text.Declension(length, "фаил", "файла", "файлов")
    ensures length != 1 && kind == "image" ==>
      name == "🌄 " + Text.IntToString(length) + " " + Text.Declension(length, "изобаражение", "изображения", "изображений")
    ensures length != 1 && kind == "video" ==> name == "🌄 " + Text.IntToString(length) + " видео"
    ensures kind !in {"sticker", "audio", "file", "image", "video"} ==> name == ""
  {
    if kind == "sticker" then "🌄 Стикер"
    else if kind == "audio" then "🔈 Аудиосообщение"
    else if kind == "file" then
      if length == 1 then "📎 Фаил"
      else "📎 " + Text.IntToString(length) + " " + Text.Declension(length, "фаил", "файла", "файлов")
    else if kind == "image" then
      if length == 1 then "🌄 Изображение"
      else "🌄 " + Text.IntToString(length) + " " + Text.Declension(length, "изобаражение", "изображения", "изображений")
    else if kind == "video" then
      if length == 1 then "📹 Видео"
      else "🌄 " + Text.IntToString(length) + " видео"
    else ""
  }

  /**
   * Every known type has a non-empty label that opens with its icon; several videos are
   * labelled with the image icon, one video with the video icon.
   */
  lemma GetNameIcons(kind: string, length: int)
    ensures kind in {"sticker", "audio", "file", "image", "video"} ==> GetName(kind, length) != ""
    ensures kind == "file" ==> Text.StartsWith(GetName(kind, length), "📎 ")
    ensures kind == "image" || kind == "sticker" ==> Text.StartsWith(GetName(kind, length), "🌄 ")
    ensures kind == "audio" ==> Text.StartsWith(GetName(kind, length), "🔈 ")
    ensures kind == "video" ==> Text.StartsWith(GetName(kind, length), if length == 1 then "📹 " else "🌄 ")
  {
  }
}
