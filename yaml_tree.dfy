/** The tree mutator: `ImageUpdater.updateYamlContent` (src/updater.ts:144-168)
    over the value js-yaml's `load` produces for one manifest. */
module YamlTree {
  import Text

  /** A loaded manifest. A `Mapping` lists its own enumerable entries in
      `Object.entries` order (js-yaml rejects duplicate keys, so keys are
      distinct). `Timestamp` is the JavaScript `Date` js-yaml makes of a YAML
      timestamp: an object that is not an array and has no own entries.
      `Undefined` is what `load` gives for a document with no content. */
  datatype Node =
    | Mapping(fields: seq<Field>)
    | Sequence(items: seq<Node>)
    | Str(text: string)
    | Number(value: real)
    | Bool(flag: bool)
    | Null
    | Undefined
    | Timestamp(text: string)

  datatype Field = Field(key: string, value: Node)

  const ImageKey: string := "image"

  /** `value.split(':')[0]`: the part of an image reference before its first colon. */
  function BaseName(s: string): (b: string)
    ensures b <= s
    ensures ':' !in b
    ensures |b| < |s| ==> s[|b|] == ':'
  {
    if s == [] || s[0] == ':' then [] else [s[0]] + BaseName(s[1..])
  }

  /** The base name is the first piece `split(':')` gives. */
  lemma {:induction false} BaseNameIsFirstPiece(s: string)
    ensures BaseName(s) == Text.Split(s, ':')[0]
  {
    if s != [] && s[0] != ':' {
      BaseNameIsFirstPiece(s[1..]);
    }
  }

  /** The reference the mutator writes: `${imageName}:${newVersion}`. */
  function Tagged(image: string, version: string): string
  {
    image + ":" + version
  }

  /** What an `image` string becomes: re-tagged when its base name is exactly
      the target image, kept verbatim otherwise. */
  function RetagImage(s: string, image: string, version: string): string
  {
    if BaseName(s) == image then Tagged(image, version) else s
  }

  /** A field the mutator treats as an image reference: key `image`, string value. */
  predicate IsImageSlot(f: Field)
  {
    f.key == ImageKey && f.value.Str?
  }

  /** The mutator's result on a node, as a function. */
  function Rewrite(n: Node, image: string, version: string): Node
  {
    match n
    case Mapping(fs) => Mapping(RewriteFields(fs, image, version))
    case Sequence(xs) => Sequence(RewriteItems(xs, image, version))
    case Timestamp(_) => Mapping([])
    case _ => n
  }

  function RewriteField(f: Field, image: string, version: string): Field
  {
    if IsImageSlot(f) then Field(f.key, Str(RetagImage(f.value.text, image, version)))
    else Field(f.key, Rewrite(f.value, image, version))
  }

  /** The rewritten entries of a mapping: the same keys, in the same order. */
  function RewriteFields(fs: seq<Field>, image: string, version: string): (r: seq<Field>)
    ensures |r| == |fs|
    ensures forall k :: 0 <= k < |fs| ==> r[k].key == fs[k].key
  {
    if fs == [] then [] else [RewriteField(fs[0], image, version)] + RewriteFields(fs[1..], image, version)
  }

  function RewriteItems(xs: seq<Node>, image: string, version: string): (r: seq<Node>)
    ensures |r| == |xs|
  {
    if xs == [] then [] else [Rewrite(xs[0], image, version)] + RewriteItems(xs[1..], image, version)
  }

  // ---------------------------------------------------------------------------
  // The mutator as the source writes it: recursion, `Array.prototype.map`, and
  // a `for` loop that fills the new mapping entry by entry.

  method UpdateYamlContent(content: Node, image: string, version: string) returns (r: Node)
    ensures r == Rewrite(content, image, version)
    decreases content
  {
    match content {
      case Sequence(xs) =>
        var mapped: seq<Node> := [];
        for i := 0 to |xs|
          invariant |mapped| == i
          invariant forall k :: 0 <= k < i ==> mapped[k] == Rewrite(xs[k], image, version)
        {
          var item := UpdateYamlContent(xs[i], image, version);
          mapped := mapped + [item];
        }
        RewriteItemsAt(xs, image, version);
        r := Sequence(mapped);
      case Mapping(fs) =>
        var updated: seq<Field> := [];
        for i := 0 to |fs|
          invariant |updated| == i
          invariant forall k :: 0 <= k < i ==> updated[k] == RewriteField(fs[k], image, version)
        {
          var key, value := fs[i].key, fs[i].value;
          if key == ImageKey && value.Str? {
            var imageWithoutVersion := BaseName(value.text);
            if imageWithoutVersion == image {
              updated := updated + [Field(key, Str(Tagged(image, version)))];
            } else {
              updated := updated + [Field(key, value)];
            }
          } else {
            var v := UpdateYamlContent(value, image, version);
            updated := updated + [Field(key, v)];
          }
        }
        RewriteFieldsAt(fs, image, version);
        r := Mapping(updated);
      case Timestamp(_) =>
        r := Mapping([]);
      case _ =>
        r := content;
    }
  }

  /** A sequence is mapped element by element. */
  lemma {:induction false} RewriteItemsAt(xs: seq<Node>, image: string, version: string)
    ensures |RewriteItems(xs, image, version)| == |xs|
    ensures forall k :: 0 <= k < |xs| ==> RewriteItems(xs, image, version)[k] == Rewrite(xs[k], image, version)
  {
    if xs != [] {
      RewriteItemsAt(xs[1..], image, version);
    }
  }

  /** A mapping is rewritten entry by entry: an image slot is re-tagged or kept,
      every other value (an `image` key holding a mapping or a sequence
      included) is rewritten recursively. */
  lemma {:induction false} RewriteFieldsAt(fs: seq<Field>, image: string, version: string)
    ensures |RewriteFields(fs, image, version)| == |fs|
    ensures forall k :: 0 <= k < |fs| ==> RewriteFields(fs, image, version)[k] == RewriteField(fs[k], image, version)
  {
    if fs != [] {
      RewriteFieldsAt(fs[1..], image, version);
    }
  }

  // ---------------------------------------------------------------------------
  // An independent description of the mutator: the tree with its image slots
  // blanked out, and the list of image slot strings in document order.

  /** The tree with every image slot's string replaced by "". */
  function Skeleton(n: Node): Node
  {
    match n
    case Mapping(fs) => Mapping(SkeletonFields(fs))
    case Sequence(xs) => Sequence(SkeletonItems(xs))
    case _ => n
  }

  function SkeletonField(f: Field): Field
  {
    if IsImageSlot(f) then Field(f.key, Str("")) else Field(f.key, Skeleton(f.value))
  }

  function SkeletonFields(fs: seq<Field>): seq<Field>
  {
    if fs == [] then [] else [SkeletonField(fs[0])] + SkeletonFields(fs[1..])
  }

  function SkeletonItems(xs: seq<Node>): seq<Node>
  {
    if xs == [] then [] else [Skeleton(xs[0])] + SkeletonItems(xs[1..])
  }

  /** The strings held by image slots, in document order. */
  function Slots(n: Node): seq<string>
  {
    match n
    case Mapping(fs) => SlotsFields(fs)
    case Sequence(xs) => SlotsItems(xs)
    case _ => []
  }

  function SlotsField(f: Field): seq<string>
  {
    if IsImageSlot(f) then [f.value.text] else Slots(f.value)
  }

  function SlotsFields(fs: seq<Field>): seq<string>
  {
    if fs == [] then [] else SlotsField(fs[0]) + SlotsFields(fs[1..])
  }

  function SlotsItems(xs: seq<Node>): seq<string>
  {
    if xs == [] then [] else Slots(xs[0]) + SlotsItems(xs[1..])
  }

  /** Every slot string re-tagged or kept. */
  function RetagAll(ss: seq<string>, image: string, version: string): (r: seq<string>)
    ensures |r| == |ss|
  {
    if ss == [] then [] else [RetagImage(ss[0], image, version)] + RetagAll(ss[1..], image, version)
  }

  lemma {:induction false} RetagAllAppend(a: seq<string>, b: seq<string>, image: string, version: string)
    ensures RetagAll(a + b, image, version) == RetagAll(a, image, version) + RetagAll(b, image, version)
  {
    if a == [] {
      assert a + b == b;
    } else {
      assert (a + b)[1..] == a[1..] + b;
      RetagAllAppend(a[1..], b, image, version);
    }
  }

  lemma {:induction false} RetagAllAt(ss: seq<string>, image: string, version: string)
    ensures forall k :: 0 <= k < |ss| ==> RetagAll(ss, image, version)[k] == RetagImage(ss[k], image, version)
  {
    if ss != [] {
      RetagAllAt(ss[1..], image, version);
    }
  }

  /** The tree holds no `Date` value. */
  predicate TimestampFree(n: Node)
  {
    match n
    case Mapping(fs) => TimestampFreeFields(fs)
    case Sequence(xs) => TimestampFreeItems(xs)
    case Timestamp(_) => false
    case _ => true
  }

  predicate TimestampFreeFields(fs: seq<Field>)
  {
    fs == [] || (TimestampFree(fs[0].value) && TimestampFreeFields(fs[1..]))
  }

  predicate TimestampFreeItems(xs: seq<Node>)
  {
    xs == [] || (TimestampFree(xs[0]) && TimestampFreeItems(xs[1..]))
  }

  // ---------------------------------------------------------------------------
  // The mutator's slots are the input's slots, each re-tagged or kept.

  lemma {:induction false} RewriteSlots(n: Node, image: string, version: string)
    ensures Slots(Rewrite(n, image, version)) == RetagAll(Slots(n), image, version)
    decreases n, 1
  {
    match n
    case Mapping(fs) => RewriteSlotsFields(fs, image, version);
    case Sequence(xs) => RewriteSlotsItems(xs, image, version);
    case _ =>
  }

  lemma {:induction false} RewriteSlotsField(f: Field, image: string, version: string)
    ensures SlotsField(RewriteField(f, image, version)) == RetagAll(SlotsField(f), image, version)
    decreases f, 1
  {
    if !IsImageSlot(f) {
      RewriteSlots(f.value, image, version);
    }
  }

  lemma {:induction false} RewriteSlotsFields(fs: seq<Field>, image: string, version: string)
    ensures SlotsFields(RewriteFields(fs, image, version)) == RetagAll(SlotsFields(fs), image, version)
    decreases fs, 0
  {
    if fs != [] {
      RewriteSlotsField(fs[0], image, version);
      RewriteSlotsFields(fs[1..], image, version);
      RetagAllAppend(SlotsField(fs[0]), SlotsFields(fs[1..]), image, version);
    }
  }

  lemma {:induction false} RewriteSlotsItems(xs: seq<Node>, image: string, version: string)
    ensures SlotsItems(RewriteItems(xs, image, version)) == RetagAll(SlotsItems(xs), image, version)
    decreases xs, 0
  {
    if xs != [] {
      RewriteSlots(xs[0], image, version);
      RewriteSlotsItems(xs[1..], image, version);
      RetagAllAppend(Slots(xs[0]), SlotsItems(xs[1..]), image, version);
    }
  }

  // ---------------------------------------------------------------------------
  // Outside its image slots, a timestamp-free tree comes back unchanged.

  lemma {:induction false} RewriteSkeleton(n: Node, image: string, version: string)
    requires TimestampFree(n)
    ensures Skeleton(Rewrite(n, image, version)) == Skeleton(n)
    decreases n, 1
  {
    match n
    case Mapping(fs) => RewriteSkeletonFields(fs, image, version);
    case Sequence(xs) => RewriteSkeletonItems(xs, image, version);
    case _ =>
  }

  lemma {:induction false} RewriteSkeletonFields(fs: seq<Field>, image: string, version: string)
    requires TimestampFreeFields(fs)
    ensures SkeletonFields(RewriteFields(fs, image, version)) == SkeletonFields(fs)
    decreases fs, 0
  {
    if fs != [] {
      if !IsImageSlot(fs[0]) {
        RewriteSkeleton(fs[0].value, image, version);
      }
      RewriteSkeletonFields(fs[1..], image, version);
    }
  }

  lemma {:induction false} RewriteSkeletonItems(xs: seq<Node>, image: string, version: string)
    requires TimestampFreeItems(xs)
    ensures SkeletonItems(RewriteItems(xs, image, version)) == SkeletonItems(xs)
    decreases xs, 0
  {
    if xs != [] {
      RewriteSkeleton(xs[0], image, version);
      RewriteSkeletonItems(xs[1..], image, version);
    }
  }

  /** The mutator never produces a `Date`. */
  lemma {:induction false} RewriteTimestampFree(n: Node, image: string, version: string)
    ensures TimestampFree(Rewrite(n, image, version))
    decreases n, 1
  {
    match n
    case Mapping(fs) => RewriteTimestampFreeFields(fs, image, version);
    case Sequence(xs) => RewriteTimestampFreeItems(xs, image, version);
    case _ =>
  }

  lemma {:induction false} RewriteTimestampFreeFields(fs: seq<Field>, image: string, version: string)
    ensures TimestampFreeFields(RewriteFields(fs, image, version))
    decreases fs, 0
  {
    if fs != [] {
      if !IsImageSlot(fs[0]) {
        RewriteTimestampFree(fs[0].value, image, version);
      }
      RewriteTimestampFreeFields(fs[1..], image, version);
    }
  }

  lemma {:induction false} RewriteTimestampFreeItems(xs: seq<Node>, image: string, version: string)
    ensures TimestampFreeItems(RewriteItems(xs, image, version))
    decreases xs, 0
  {
    if xs != [] {
      RewriteTimestampFree(xs[0], image, version);
      RewriteTimestampFreeItems(xs[1..], image, version);
    }
  }

  // ---------------------------------------------------------------------------
  // A tree is determined by its skeleton and its slots.

  lemma {:induction false} SkeletonSlotsDetermine(a: Node, b: Node)
    requires Skeleton(a) == Skeleton(b)
    ensures |Slots(a)| == |Slots(b)|
    ensures Slots(a) == Slots(b) ==> a == b
    decreases a, 1
  {
    match a
    case Mapping(fs) =>
      assert b.Mapping?;
      SkeletonSlotsDetermineFields(fs, b.fields);
    case Sequence(xs) =>
      assert b.Sequence?;
      SkeletonSlotsDetermineItems(xs, b.items);
    case _ =>
  }

  lemma {:induction false} SkeletonSlotsDetermineField(f: Field, g: Field)
    requires SkeletonField(f) == SkeletonField(g)
    ensures |SlotsField(f)| == |SlotsField(g)|
    ensures SlotsField(f) == SlotsField(g) ==> f == g
    decreases f, 1
  {
    if !IsImageSlot(f) && !IsImageSlot(g) {
      SkeletonSlotsDetermine(f.value, g.value);
    }
  }

  lemma {:induction false} SkeletonSlotsDetermineFields(fs: seq<Field>, gs: seq<Field>)
    requires SkeletonFields(fs) == SkeletonFields(gs)
    ensures |SlotsFields(fs)| == |SlotsFields(gs)|
    ensures SlotsFields(fs) == SlotsFields(gs) ==> fs == gs
    decreases fs, 0
  {
    if fs == [] {
      assert gs == [];
    } else {
      assert gs != [];
      assert SkeletonField(fs[0]) == SkeletonFields(fs)[0] == SkeletonFields(gs)[0] == SkeletonField(gs[0]);
      assert SkeletonFields(fs[1..]) == SkeletonFields(fs)[1..] == SkeletonFields(gs)[1..] == SkeletonFields(gs[1..]);
      SkeletonSlotsDetermineField(fs[0], gs[0]);
      SkeletonSlotsDetermineFields(fs[1..], gs[1..]);
      if SlotsFields(fs) == SlotsFields(gs) {
        var n := |SlotsField(fs[0])|;
        assert SlotsField(fs[0]) == SlotsFields(fs)[..n] == SlotsField(gs[0]);
        assert SlotsFields(fs[1..]) == SlotsFields(fs)[n..] == SlotsFields(gs[1..]);
        assert fs == [fs[0]] + fs[1..];
        assert gs == [gs[0]] + gs[1..];
      }
    }
  }

  lemma {:induction false} SkeletonSlotsDetermineItems(xs: seq<Node>, ys: seq<Node>)
    requires SkeletonItems(xs) == SkeletonItems(ys)
    ensures |SlotsItems(xs)| == |SlotsItems(ys)|
    ensures SlotsItems(xs) == SlotsItems(ys) ==> xs == ys
    decreases xs, 0
  {
    if xs == [] {
      assert ys == [];
    } else {
      assert ys != [];
      assert Skeleton(xs[0]) == SkeletonItems(xs)[0] == SkeletonItems(ys)[0] == Skeleton(ys[0]);
      assert SkeletonItems(xs[1..]) == SkeletonItems(xs)[1..] == SkeletonItems(ys)[1..] == SkeletonItems(ys[1..]);
      SkeletonSlotsDetermine(xs[0], ys[0]);
      SkeletonSlotsDetermineItems(xs[1..], ys[1..]);
      if SlotsItems(xs) == SlotsItems(ys) {
        var n := |Slots(xs[0])|;
        assert Slots(xs[0]) == SlotsItems(xs)[..n] == Slots(ys[0]);
        assert SlotsItems(xs[1..]) == SlotsItems(xs)[n..] == SlotsItems(ys[1..]);
        assert xs == [xs[0]] + xs[1..];
        assert ys == [ys[0]] + ys[1..];
      }
    }
  }

  // ---------------------------------------------------------------------------
  // What the mutator promises.

  /** A timestamp-free tree comes back equal to itself exactly when every one
      of its image slots is already what re-tagging would make of it. */
  lemma RewriteUnchangedIff(n: Node, image: string, version: string)
    requires TimestampFree(n)
    ensures Rewrite(n, image, version) == n <==>
            forall k :: 0 <= k < |Slots(n)| ==> RetagImage(Slots(n)[k], image, version) == Slots(n)[k]
  {
    var r := Rewrite(n, image, version);
    RewriteSlots(n, image, version);
    RetagAllAt(Slots(n), image, version);
    if forall k :: 0 <= k < |Slots(n)| ==> RetagImage(Slots(n)[k], image, version) == Slots(n)[k] {
      assert RetagAll(Slots(n), image, version) == Slots(n);
      RewriteSkeleton(n, image, version);
      SkeletonSlotsDetermine(r, n);
    }
  }

  /** No image slot whose base name is the target: the tree is returned as it was. */
  lemma NoMatchUnchanged(n: Node, image: string, version: string)
    requires TimestampFree(n)
    requires forall k :: 0 <= k < |Slots(n)| ==> BaseName(Slots(n)[k]) != image
    ensures Rewrite(n, image, version) == n
  {
    RewriteUnchangedIff(n, image, version);
  }

  /** An image name holding a colon is never the base name of anything, so
      the mutator changes nothing in a timestamp-free tree. */
  lemma ColonImageNeverMatches(n: Node, image: string, version: string)
    requires ':' in image
    requires TimestampFree(n)
    ensures Rewrite(n, image, version) == n
  {
    NoMatchUnchanged(n, image, version);
  }

  /** A re-tagged reference has the target as its base name again. */
  lemma {:induction false} BaseNameTagged(image: string, version: string)
    requires ':' !in image
    ensures BaseName(Tagged(image, version)) == image
  {
    if image != [] {
      BaseNameTagged(image[1..], version);
      assert Tagged(image, version)[1..] == Tagged(image[1..], version);
    }
  }

  /** Re-tagging a reference twice is re-tagging it once. */
  lemma RetagIdempotent(s: string, image: string, version: string)
    ensures RetagImage(RetagImage(s, image, version), image, version) == RetagImage(s, image, version)
  {
    if BaseName(s) == image {
      BaseNameTagged(image, version);
    }
  }

  /** Running the mutator on its own output changes nothing, for any image name. */
  lemma RewriteIdempotent(n: Node, image: string, version: string)
    ensures Rewrite(Rewrite(n, image, version), image, version) == Rewrite(n, image, version)
  {
    var r := Rewrite(n, image, version);
    RewriteTimestampFree(n, image, version);
    RewriteSlots(n, image, version);
    RetagAllAt(Slots(n), image, version);
    forall k | 0 <= k < |Slots(r)|
      ensures RetagImage(Slots(r)[k], image, version) == Slots(r)[k]
    {
      RetagIdempotent(Slots(n)[k], image, version);
    }
    RewriteUnchangedIff(r, image, version);
  }

  /** Shape preservation: a sequence keeps its length, a mapping its keys in
      order, a scalar (string, number, boolean, null, undefined) comes back unchanged, and
      a `Date` becomes an empty mapping. */
  lemma RewriteShape(n: Node, image: string, version: string)
    ensures n.Sequence? ==> Rewrite(n, image, version).Sequence? && |Rewrite(n, image, version).items| == |n.items|
    ensures n.Mapping? ==> Rewrite(n, image, version).Mapping? && Keys(Rewrite(n, image, version).fields) == Keys(n.fields)
    ensures (n.Str? || n.Number? || n.Bool? || n.Null? || n.Undefined?) ==> Rewrite(n, image, version) == n
    ensures n.Timestamp? ==> Rewrite(n, image, version) == Mapping([])
  {
  }

  /** The keys of a mapping, in order. */
  function Keys(fs: seq<Field>): (ks: seq<string>)
    ensures |ks| == |fs|
  {
    seq(|fs|, k requires 0 <= k < |fs| => fs[k].key)
  }

  /** A single `image` string entry: re-tagged exactly when its base name is the target. */
  lemma ImageEntryRule(s: string, image: string, version: string)
    ensures Rewrite(Mapping([Field(ImageKey, Str(s))]), image, version)
         == Mapping([Field(ImageKey, Str(if BaseName(s) == image then image + ":" + version else s))])
  {
    var f := Field(ImageKey, Str(s));
    assert [f][1..] == [];
    assert RewriteFields([f], image, version) == [RewriteField(f, image, version)] + RewriteFields([], image, version);
  }
}
