/** `GGufFileName`: the parts of a GGUF file name, how a name is taken apart into them, how
    they print back, and the operations on the shard part. */
module FileName {
  import opened Wrappers
  import opened Decimal
  import opened NamePattern
  import NameType
  import NameVersion

  const U32_MAX: nat := NameVersion.U32_MAX

  /** `NonZero<u32>`. */
  type NonZeroU32 = x: nat | 1 <= x <= NameVersion.U32_MAX witness 1

  // ---------------------------------------------------------------- parts

  /** The position of a file among the shards of one model. shard.rs is not part of this
      model: both numbers are taken to be `NonZero<u32>`. */
  datatype Shard = Shard(index: NonZeroU32, count: NonZeroU32)

  /** `Shard::default()`: the one shard of a single file. */
  const DEFAULT_SHARD: Shard := Shard(1, 1)

  /** `Shard::new`, taken to refuse (to panic on) a zero index or count. */
  function NewShard(index: NameVersion.U32, count: NameVersion.U32): (r: Run<Shard>)
    ensures r.Done? <==> index >= 1 && count >= 1
    ensures r.Done? ==> r.value.index == index && r.value.count == count
  {
    if index >= 1 && count >= 1 then Done(Shard(index, count)) else Panicked
  }

  /** `Display for Shard`, taken to print nothing for a single file and
      `-{index:05}-of-{count:05}`, what the shard pattern reads, otherwise. */
  function ShardDisplay(s: Shard): string
  {
    if s.count == 1 then "" else ShardText(s.index, s.count)
  }

  /** The size of a model (size_label.rs is not part of this model): a multiplier e, a
      number a with a fraction b, and a unit letter l, as `SizeLabel::new(e, a, b, l)` takes them. */
  datatype SizeLabel = SizeLabel(e: nat, a: nat, b: nat, l: char)

  /** `Display for SizeLabel`, taken to be the text the size pattern reads back: the
      multiplier unless it is 1, the number, the fraction unless it is 0, the unit letter. */
  function SizeLabelDisplay(s: SizeLabel): string
  {
    MultiplierOf(if s.e == 1 then "" else Dec(s.e)) + Dec(s.a) + FractionOf(if s.b == 0 then "" else Dec(s.b)) + [s.l]
  }

  /** The label that try_from builds from the captures of the size pattern: a missing
      multiplier is 1 and a missing fraction 0. */
  function LabelOf(p: SizeParts): SizeLabel
    requires AllDigits(p.e) && AllDigits(p.a) && AllDigits(p.b)
  {
    SizeLabel(if p.e == "" then 1 else Value(p.e), Value(p.a), if p.b == "" then 0 else Value(p.b), p.l)
  }

  datatype FileName = FileName(
    baseName: string,
    sizeLabel: Option<SizeLabel>,
    fineTune: string,
    version: Option<NameVersion.Version>,
    encoding: Option<string>,
    type_: NameType.Type,
    shard: Shard)

  /** `Default for GGufFileName`: a single plain file called `model`. */
  function Default(): FileName
  {
    FileName("model", None, "", None, None, NameType.Default, DEFAULT_SHARD)
  }

  /** Two names agree on everything but the shard. */
  predicate SameFields(a: FileName, b: FileName)
  {
    a.baseName == b.baseName && a.sizeLabel == b.sizeLabel && a.fineTune == b.fineTune
    && a.version == b.version && a.encoding == b.encoding && a.type_ == b.type_
  }

  // ---------------------------------------------------------------- parsing

  /** The outcome of `try_from`: a name, `GGufExtNotMatch`, or a panic in one of its
      `unwrap`s (a zero shard number or a version number beyond `u32`). */
  datatype Parsed = Named(name: FileName) | ExtNotMatch | Aborted

  /** The shard suffix taken off the end, or the default shard when there is none. */
  function ShardStage(name: string): (r: Run<(string, Shard)>)
  {
    match ShardCapture(name)
    case None => Done((name, DEFAULT_SHARD))
    case Some(c) =>
      match NewShard(c.1, c.2)
      case Panicked => Panicked
      case Done(shard) => Done((c.0, shard))
  }

  /** The type suffix taken off the end, `-vocab` tried before `-LoRA`. */
  function TypeStage(name: string): (string, NameType.Type)
  {
    match StripSuffix(name, NameType.TYPE_VOCAB)
    case Some(base) => (base, NameType.Vocab)
    case None =>
      match StripSuffix(name, NameType.TYPE_LORA)
      case Some(base) => (base, NameType.LoRA)
      case None => (name, NameType.Default)
  }

  /** The version suffix taken off the end; its numbers are read as `u32` and one too large
      for it makes `unwrap` panic. */
  function VersionStage(name: string): (r: Run<(string, Option<NameVersion.Version>)>)
  {
    match VersionCapture(name)
    case None => Done((name, None))
    case Some(c) =>
      var major, minor := Value(c.1), Value(c.2);
      if major > U32_MAX || minor > U32_MAX then Panicked
      else Done((c.0, Some(NameVersion.New(major, minor))))
  }

  /** What the text left after the type suffix comes to: a size label was found (with the
      base before it, the fine-tune, the version and the encoding after the last `-`), or
      none was, and `rest` is the text as far as try_from had trimmed it by then. */
  datatype Tail =
    | Labelled(base: string, size: SizeLabel, fineTune: string, version: Option<NameVersion.Version>, encoding: string)
    | Unlabelled(rest: string)

  function TailStage(stem: string): (r: Run<Tail>)
  {
    match RSplitOnce(stem, '-')
    case None => Done(Unlabelled(stem))
    case Some(split) =>
      match VersionStage(split.0)
      case Panicked => Panicked
      case Done(v) =>
        match SizeCapture(v.0)
        case Some(c) => Done(Labelled(c.0, LabelOf(c.1), c.1.fineTune, v.1, split.1))
        case None => Done(Unlabelled(v.0))
  }

  /** The stages of try_from in order: the extension, the shard, the type, then the rest. */
  datatype Stages = NoExt | Panic | Split(stem: string, type_: NameType.Type, shard: Shard, tail: Tail)

  function StagesOf(s: string): (r: Stages)
    ensures r.NoExt? <==> StripSuffix(s, EXT).None?
  {
    match StripSuffix(s, EXT)
    case None => NoExt
    case Some(name) =>
      match ShardStage(name)
      case Panicked => Panic
      case Done(sh) =>
        var (stem, t) := TypeStage(sh.0);
        match TailStage(stem)
        case Panicked => Panic
        case Done(tail) => Split(stem, t, sh.1, tail)
  }

  /** `try_from(&str)` as written: when no size label is found, the base name is the text
      as trimmed so far, without the encoding and the version that were cut off it. */
  function ParseAsWritten(s: string): (r: Parsed)
    ensures r.ExtNotMatch? <==> !(|s| >= |EXT| && s[|s| - |EXT|..] == EXT)
  {
    match StagesOf(s)
    case NoExt => ExtNotMatch
    case Panic => Aborted
    case Split(_, t, shard, Labelled(base, size, fineTune, version, encoding)) =>
      Named(FileName(base, Some(size), fineTune, version, Some(encoding), t, shard))
    case Split(_, t, shard, Unlabelled(rest)) =>
      Named(FileName(rest, None, "", None, None, t, shard))
  }

  /** `try_from(&str)` with the base name it evidently intends when no size label is found:
      the whole text left after the shard and type suffixes. */
  function Parse(s: string): (r: Parsed)
    ensures r.ExtNotMatch? <==> !(|s| >= |EXT| && s[|s| - |EXT|..] == EXT)
  {
    match StagesOf(s)
    case NoExt => ExtNotMatch
    case Panic => Aborted
    case Split(_, t, shard, Labelled(base, size, fineTune, version, encoding)) =>
      Named(FileName(base, Some(size), fineTune, version, Some(encoding), t, shard))
    case Split(stem, t, shard, Unlabelled(_)) =>
      Named(FileName(stem, None, "", None, None, t, shard))
  }

  /** `try_from(&str)`, trimming the name step by step from the right. */
  method TryFrom(s: string) returns (r: Parsed)
    ensures r == ParseAsWritten(s)
  {
    var name: string;
    match StripSuffix(s, EXT) {
      case None => return ExtNotMatch;
      case Some(n) => name := n;
    }
    var sharded := TrimShard(name);
    if sharded.Panicked? {
      return Aborted;
    }
    var shard := sharded.value.1;
    var stem, type_ := TrimType(sharded.value.0);
    var tail := TrimTail(stem);
    if tail.Panicked? {
      return Aborted;
    }
    match tail.value {
      case Labelled(base, size, fineTune, version, encoding) =>
        r := Named(FileName(base, Some(size), fineTune, version, Some(encoding), type_, shard));
      case Unlabelled(rest) =>
        r := Named(FileName(rest, None, "", None, None, type_, shard));
    }
  }

  /** The shard suffix of try_from: `-00001-of-00003` cut off and read into a `Shard`. */
  method TrimShard(name: string) returns (r: Run<(string, Shard)>)
    ensures r == ShardStage(name)
  {
    var shard := DEFAULT_SHARD;
    var rest := name;
    match ShardCapture(name) {
      case None =>
      case Some(c) =>
        rest := c.0;
        var made := NewShard(c.1, c.2);
        if made.Panicked? {
          return Panicked;
        }
        shard := made.value;
    }
    return Done((rest, shard));
  }

  /** The type suffix of try_from: `-vocab`, or else `-LoRA`, cut off. */
  method TrimType(name: string) returns (rest: string, type_: NameType.Type)
    ensures (rest, type_) == TypeStage(name)
  {
    rest, type_ := name, NameType.Default;
    match StripSuffix(name, NameType.TYPE_VOCAB) {
      case Some(base) =>
        rest, type_ := base, NameType.Vocab;
      case None =>
        match StripSuffix(name, NameType.TYPE_LORA) {
          case Some(base) =>
            rest, type_ := base, NameType.LoRA;
          case None =>
        }
    }
  }

  /** The second half of try_from: the encoding after the last `-`, then the version, then
      the size label and what is left for the base. */
  method TrimTail(stem: string) returns (r: Run<Tail>)
    ensures r == TailStage(stem)
  {
    var name := stem;
    var split := RSplitOnce(name, '-');
    if split.None? {
      return Done(Unlabelled(name));
    }
    var encoding := split.value.1;
    name := split.value.0;
    var version: Option<NameVersion.Version> := None;
    match VersionCapture(name) {
      case None =>
      case Some(c) =>
        name := c.0;
        var major, minor := Value(c.1), Value(c.2);
        if major > U32_MAX || minor > U32_MAX {
          return Panicked;
        }
        version := Some(NameVersion.New(major, minor));
    }
    assert VersionStage(split.value.0) == Done((name, version));
    match SizeCapture(name) {
      case Some(c) =>
        r := Done(Labelled(c.0, LabelOf(c.1), c.1.fineTune, version, encoding));
      case None =>
        r := Done(Unlabelled(name));
    }
  }

  // ---------------------------------------------------------------- printing

  /** The pieces of a printed name that are there only when the part is. */
  function SizePiece(n: FileName): string
  {
    match n.sizeLabel case None => "" case Some(l) => "-" + SizeLabelDisplay(l)
  }

  function VersionPiece(n: FileName): string
  {
    match n.version case None => "" case Some(v) => "-" + NameVersion.Display(v)
  }

  function EncodingPiece(n: FileName): string
  {
    match n.encoding case None => "" case Some(e) => "-" + e
  }

  /** `Display for GGufFileName`: the base, `-` and the size label, `-` and the fine-tune
      when there is one, `-` and the version, `-` and the encoding, the type, the shard, `.gguf`. */
  function Display(n: FileName): string
  {
    n.baseName + SizePiece(n) + FineTuneText(n.fineTune) + VersionPiece(n) + EncodingPiece(n)
    + NameType.Display(n.type_) + ShardDisplay(n.shard) + EXT
  }

  /** `fmt`, writing the pieces one after another. */
  method Format(n: FileName) returns (out: string)
    ensures out == Display(n)
  {
    out := n.baseName;
    var piece := "";
    if n.sizeLabel.Some? {
      piece := "-" + SizeLabelDisplay(n.sizeLabel.value);
    }
    out := out + piece;
    piece := "";
    if n.fineTune != "" {
      piece := "-" + n.fineTune;
    }
    out := out + piece;
    piece := "";
    if n.version.Some? {
      piece := "-" + NameVersion.Display(n.version.value);
    }
    out := out + piece;
    piece := "";
    if n.encoding.Some? {
      piece := "-" + n.encoding.value;
    }
    out := out + piece;
    out := out + NameType.Display(n.type_);
    out := out + ShardDisplay(n.shard);
    out := out + EXT;
  }

  // ---------------------------------------------------------------- shards

  /** `shard_index`: the position of the shard counted from 0. */
  function ShardIndex(n: FileName): (i: nat)
    ensures i + 1 == n.shard.index
  {
    n.shard.index - 1
  }

  /** `shard_count`. */
  function ShardCount(n: FileName): (c: nat)
    ensures c >= 1
  {
    n.shard.count
  }

  /** `into_single`: the same name as one whole file. */
  function IntoSingle(n: FileName): (r: FileName)
    ensures SameFields(r, n) && r.shard == DEFAULT_SHARD
  {
    n.(shard := DEFAULT_SHARD)
  }

  /** `iter_all`: the same name, back at the first of its shards. */
  function IterAll(n: FileName): (r: FileName)
    ensures SameFields(r, n) && r.shard.index == 1 && r.shard.count == n.shard.count
  {
    n.(shard := n.shard.(index := 1))
  }

  /** `usize::MAX` on a 64-bit target. */
  const USIZE_MAX: nat := 0xFFFF_FFFF_FFFF_FFFF

  /** `split_n`: the same name as the first of count shards. `count as u32` keeps the low
      32 bits, and a count that comes to 0 makes `NonZero::new(..).unwrap()` panic. */
  function SplitN(n: FileName, count: nat): (r: Run<FileName>)
    requires count <= USIZE_MAX
    ensures r.Done? <==> count % 0x1_0000_0000 != 0
    ensures r.Done? ==> SameFields(r.value, n) && r.value.shard.index == 1 && r.value.shard.count == count % 0x1_0000_0000
  {
    var c := count % 0x1_0000_0000;
    if c == 0 then Panicked else Done(n.(shard := Shard(1, c)))
  }

  // ---------------------------------------------------------------- parsing laws

  /** The name with its shard replaced, and any other outcome as it is. */
  function WithShard(p: Parsed, shard: Shard): Parsed
  {
    match p case Named(n) => Named(n.(shard := shard)) case other => other
  }

  /** The shard suffix is cut off and read: a name that ends in `-IIIII-of-CCCCC.gguf` is
      parsed as the name without it, with shard (I, C); a zero number makes `Shard::new` panic. */
  lemma ShardSuffixStripped(stem: string, index: nat, count: nat)
    requires index < 100000 && count < 100000 && ShardCapture(stem).None?
    ensures ParseAsWritten(stem + ShardText(index, count) + EXT)
         == if index == 0 || count == 0 then Aborted else WithShard(ParseAsWritten(stem + EXT), Shard(index, count))
  {
    ShardStages(stem, index, count);
  }

  /** The stages of a name with a shard suffix are those of the name without it, with the
      shard read from the suffix. */
  lemma ShardStages(stem: string, index: nat, count: nat)
    requires index < 100000 && count < 100000 && ShardCapture(stem).None?
    ensures index == 0 || count == 0 ==> StagesOf(stem + ShardText(index, count) + EXT) == Panic
    ensures index > 0 && count > 0 ==>
      var plain := StagesOf(stem + EXT);
      StagesOf(stem + ShardText(index, count) + EXT) == if plain.Split? then plain.(shard := Shard(index, count)) else plain
  {
    StripAppended(stem + ShardText(index, count), EXT);
    StripAppended(stem, EXT);
    ShardTextCaptured(stem, index, count);
  }

  /** `-vocab` is tried first: a name ending in `-LoRA-vocab` is a vocabulary whose text
      before the suffix still ends in `-LoRA`. */
  lemma VocabBeforeLoRA(x: string)
    ensures TypeStage(x + NameType.TYPE_LORA + NameType.TYPE_VOCAB) == (x + NameType.TYPE_LORA, NameType.Vocab)
  {
    StripAppended(x + NameType.TYPE_LORA, NameType.TYPE_VOCAB);
  }

  /** The text carries no type suffix. */
  predicate Untyped(x: string)
  {
    StripSuffix(x, NameType.TYPE_VOCAB).None? && StripSuffix(x, NameType.TYPE_LORA).None?
  }

  /** What the type stage cuts off is the printed type: the text is the stem followed by it,
      and a `Default` type leaves a stem without either suffix. */
  lemma TypeStageSplits(name: string)
    ensures TypeStage(name).0 + NameType.Display(TypeStage(name).1) == name
    ensures TypeStage(name).1 == NameType.Default ==> Untyped(name)
  {
  }

  /** A printed type is read back from the end of a text, provided the text does not end in
      a type suffix already when the type is `Default`. */
  lemma TypeRoundTrip(x: string, t: NameType.Type)
    requires t == NameType.Default ==> Untyped(x)
    ensures TypeStage(x + NameType.Display(t)) == (x, t)
  {
    match t {
      case Default =>
        assert x + NameType.Display(t) == x;
      case LoRA =>
        var y := x + NameType.TYPE_LORA;
        assert y[|y| - 1] == 'A';
        StripAppended(x, NameType.TYPE_LORA);
      case Vocab =>
        StripAppended(x, NameType.TYPE_VOCAB);
    }
  }

  /** A printed version is read back from the end of a text. */
  lemma VersionRoundTrip(head: string, v: NameVersion.Version)
    ensures VersionStage(head + ("-" + NameVersion.Display(v))) == Done((head, Some(v)))
  {
    var major, minor := Dec(v.major), Dec(v.minor);
    var tail := "-v" + major + "." + minor;
    assert head + ("-" + NameVersion.Display(v)) == head + tail;
    MatchVersionText(major, minor);
    VersionCaptured(head, tail);
    ValueOfDec(v.major);
    ValueOfDec(v.minor);
  }

  /** A shard that prints back as itself: the one shard of a single file, or numbers that
      fit the five digits of the shard suffix. */
  predicate ShardOk(shard: Shard)
  {
    if shard.count == 1 then shard.index == 1 else shard.index < 100000 && shard.count < 100000
  }

  /** A printed shard is read back from the end of a text; a single file prints nothing, so
      the text must not end in something that looks like a shard suffix itself. */
  lemma ShardRoundTrip(x: string, shard: Shard)
    requires ShardOk(shard) && (shard.count == 1 ==> ShardCapture(x).None?)
    ensures ShardStage(x + ShardDisplay(shard)) == Done((x, shard))
  {
    if shard.count == 1 {
      assert x + ShardDisplay(shard) == x;
    } else {
      ShardTextCaptured(x, shard.index, shard.count);
    }
  }

  /** What Display prints before the type, the shard and the extension. */
  function DisplayStem(n: FileName): string
  {
    n.baseName + SizePiece(n) + FineTuneText(n.fineTune) + VersionPiece(n) + EncodingPiece(n)
  }

  /** A printed name goes through the extension, shard and type stages back to the stem it
      was printed from, with its own type and shard, when these print back as themselves. */
  lemma StagesOfDisplay(n: FileName)
    requires ShardOk(n.shard)
    requires n.shard.count == 1 ==> ShardCapture(DisplayStem(n) + NameType.Display(n.type_)).None?
    requires n.type_ == NameType.Default ==> Untyped(DisplayStem(n))
    ensures StagesOf(Display(n))
         == match TailStage(DisplayStem(n)) case Panicked => Panic case Done(t) => Split(DisplayStem(n), n.type_, n.shard, t)
  {
    var stem := DisplayStem(n);
    var typed := stem + NameType.Display(n.type_);
    assert Display(n) == typed + ShardDisplay(n.shard) + EXT;
    StripAppended(typed + ShardDisplay(n.shard), EXT);
    ShardRoundTrip(typed, n.shard);
    TypeRoundTrip(stem, n.type_);
  }

  /** With no `-` left once the extension, the shard and the type are cut off, both parses
      give the name of that text alone, with nothing else but the type and the shard. */
  lemma NoDashParsed(s: string)
    requires StagesOf(s).Split? && '-' !in StagesOf(s).stem
    ensures Parse(s) == ParseAsWritten(s)
         == Named(FileName(StagesOf(s).stem, None, "", None, None, StagesOf(s).type_, StagesOf(s).shard))
  {
    NoLabelWithoutDash(StagesOf(s).stem);
  }

  /** The two parses differ only in the base of a name without a size label, where try_from
      as written keeps a prefix of what the corrected parse keeps. */
  lemma ParsesAgree(s: string)
    ensures Parse(s).Named? <==> ParseAsWritten(s).Named?
    ensures Parse(s).Named? ==>
      var p, q := Parse(s).name, ParseAsWritten(s).name;
      q == p.(baseName := q.baseName) && |q.baseName| <= |p.baseName| && q.baseName == p.baseName[..|q.baseName|]
    ensures !Parse(s).Named? ==> Parse(s) == ParseAsWritten(s)
  {
    match StagesOf(s)
    case Split(stem, _, _, Unlabelled(rest)) =>
      UnlabelledPrefix(stem);
    case _ =>
  }

  /** Without a size label, what try_from as written keeps is a prefix of the text. */
  lemma UnlabelledPrefix(x: string)
    requires NoLabelIn(x)
    ensures |TailStage(x).value.rest| <= |x| && TailStage(x).value.rest == x[..|TailStage(x).value.rest|]
  {
    match RSplitOnce(x, '-')
    case None =>
    case Some(split) =>
      match VersionCapture(split.0)
      case None =>
      case Some(c) => PrefixChain(x, split.0, c.0);
  }

  /** A prefix of a prefix of `x` is a prefix of `x`. */
  lemma PrefixChain(x: string, head: string, p: string)
    requires |head| <= |x| && head == x[..|head|] && |p| <= |head| && p == head[..|p|]
    ensures p == x[..|p|]
  {
    assert x[..|head|][..|p|] == x[..|p|];
  }

  /** A name with no size label, fine-tune, version or encoding: only a base, a type and a shard. */
  predicate Plain(n: FileName)
  {
    n.sizeLabel.None? && n.fineTune == "" && n.version.None? && n.encoding.None?
  }

  /** The tail stage finds no size label in the text: the base is all there is. */
  predicate NoLabelIn(x: string)
  {
    TailStage(x).Done? && TailStage(x).value.Unlabelled?
  }

  /** A plain name prints back as itself exactly when its base does not read as carrying a
      size label (and its type and shard print back, as in StagesOfDisplay). */
  lemma PlainRoundTrip(n: FileName)
    requires Plain(n) && ShardOk(n.shard)
    requires n.shard.count == 1 ==> ShardCapture(n.baseName + NameType.Display(n.type_)).None?
    requires n.type_ == NameType.Default ==> Untyped(n.baseName)
    ensures Parse(Display(n)) == Named(n) <==> NoLabelIn(n.baseName)
  {
    assert DisplayStem(n) == n.baseName;
    StagesOfDisplay(n);
  }

  /** try_from as written reads a plain name back only when its base has no `-` at all:
      otherwise it keeps just the text before the last `-`. */
  lemma PlainRoundTripAsWritten(n: FileName)
    requires Plain(n) && ShardOk(n.shard)
    requires n.shard.count == 1 ==> ShardCapture(n.baseName + NameType.Display(n.type_)).None?
    requires n.type_ == NameType.Default ==> Untyped(n.baseName)
    ensures ParseAsWritten(Display(n)) == Named(n) <==> NoLabelIn(n.baseName) && '-' !in n.baseName
  {
    assert DisplayStem(n) == n.baseName;
    StagesOfDisplay(n);
    if NoLabelIn(n.baseName) {
      UnlabelledRest(n.baseName);
    }
  }

  /** Without a size label, what try_from as written keeps is the whole text when it has no
      `-`, and a shorter text otherwise. */
  lemma UnlabelledRest(x: string)
    requires NoLabelIn(x)
    ensures TailStage(x).value.rest == x <==> '-' !in x
  {
    match RSplitOnce(x, '-')
    case None =>
    case Some(split) =>
      var v := VersionStage(split.0).value;
      assert |v.0| <= |split.0| < |x|;
  }

  /** A base without `-` is never read as carrying a size label. */
  lemma NoLabelWithoutDash(x: string)
    requires '-' !in x
    ensures TailStage(x) == Done(Unlabelled(x))
  {
  }

  /** A text whose last `-` is followed by a word other than `vocab` and `LoRA` carries no
      type suffix. */
  lemma UntypedAfterWord(head: string, word: string)
    requires '-' !in word && word != "vocab" && word != "LoRA"
    ensures Untyped(head + "-" + word)
  {
    NotVocabAfterWord(head, word);
    NotLoRAAfterWord(head, word);
  }

  lemma NotVocabAfterWord(head: string, word: string)
    requires '-' !in word && word != "vocab"
    ensures StripSuffix(head + "-" + word, NameType.TYPE_VOCAB).None?
  {
    var x := head + "-" + word;
    var n := |x|;
    assert x[n - 1 - |word|] == '-' && x[n - |word|..] == word;
    assert |word| >= 6 ==> x[n - 6] == word[|word| - 6];
  }

  lemma NotLoRAAfterWord(head: string, word: string)
    requires '-' !in word && word != "LoRA"
    ensures StripSuffix(head + "-" + word, NameType.TYPE_LORA).None?
  {
    var x := head + "-" + word;
    var n := |x|;
    assert x[n - 1 - |word|] == '-' && x[n - |word|..] == word;
    assert |word| >= 5 ==> x[n - 5] == word[|word| - 5];
  }

  /** The digits in which a size label is printed: no multiplier text for 1, no fraction
      text for 0. */
  function SizeDigits(l: SizeLabel, fineTune: string): SizeParts
  {
    SizeParts(if l.e == 1 then "" else Dec(l.e), Dec(l.a), if l.b == 0 then "" else Dec(l.b), l.l, fineTune)
  }

  /** A printed size label and fine-tune are matched, and the label they are read into is
      the one printed. */
  lemma SizeRoundTrip(l: SizeLabel, fineTune: string)
    requires IsUnit(l.l) && AllWord(fineTune)
    ensures MatchSize("-" + SizeLabelDisplay(l) + FineTuneText(fineTune)) == Some(SizeDigits(l, fineTune))
    ensures LabelOf(SizeDigits(l, fineTune)) == l
  {
    var d := SizeDigits(l, fineTune);
    assert "-" + SizeLabelDisplay(l) + FineTuneText(fineTune)
        == "-" + (MultiplierOf(d.e) + (d.a + (FractionOf(d.b) + ([l.l] + FineTuneText(fineTune)))));
    MatchSizeDigits(d.e, d.a, d.b, l.l, fineTune);
    ValueOfDec(l.e);
    ValueOfDec(l.a);
    ValueOfDec(l.b);
  }

  /** A text in which a unit letter is followed only by a fine-tune has no version suffix:
      what ends a size label. */
  lemma NoVersionAfterFineTune(x: string, y: string, fineTune: string)
    requires |y| > 0 && IsUnit(y[|y| - 1]) && AllWord(fineTune)
    ensures VersionCapture(x + (y + FineTuneText(fineTune))).None?
  {
    var t := FineTuneText(fineTune);
    var s := x + (y + t);
    var k := |x| + |y| - 1;
    assert s[k] == y[|y| - 1];
    assert forall j :: k < j < |s| ==> s[j] == t[j - k - 1];
    assert forall j :: 0 <= j < |t| ==> t[j] != '.';
    NoVersionAfter(s, k);
  }

  /** A name with a size label and an encoding prints back as itself, both through try_from
      as written and the corrected parse, when its parts print as the patterns read them: a
      base without `-` (the leftmost size match must be the printed one), a unit letter of
      `QTBMK`, a fine-tune of word characters, an encoding without `-` that the type and the
      shard stages leave alone. */
  lemma LabelledRoundTrip(n: FileName)
    requires PrintsLabelled(n)
    requires n.type_ == NameType.Default ==> n.encoding.value != "vocab" && n.encoding.value != "LoRA"
    requires ShardOk(n.shard)
    requires n.shard.count == 1 && n.type_ == NameType.Default ==> !(|n.encoding.value| == 5 && AllDigits(n.encoding.value))
    ensures Parse(Display(n)) == Named(n)
    ensures ParseAsWritten(Display(n)) == Named(n)
  {
    var tail := Labelled(n.baseName, n.sizeLabel.value, n.fineTune, n.version, n.encoding.value);
    LabelledSuffixes(n);
    StagesOfDisplay(n);
    LabelledParsed(Display(n), DisplayStem(n), n.type_, n.shard, tail);
  }

  /** The stem of a labelled name goes through the tail stage into its parts, and the type
      and shard stages find no suffix in it that is not there. */
  lemma LabelledSuffixes(n: FileName)
    requires PrintsLabelled(n)
    requires n.type_ == NameType.Default ==> n.encoding.value != "vocab" && n.encoding.value != "LoRA"
    requires n.shard.count == 1 && n.type_ == NameType.Default ==> !(|n.encoding.value| == 5 && AllDigits(n.encoding.value))
    ensures TailStage(DisplayStem(n)) == Done(Labelled(n.baseName, n.sizeLabel.value, n.fineTune, n.version, n.encoding.value))
    ensures n.shard.count == 1 ==> ShardCapture(DisplayStem(n) + NameType.Display(n.type_)).None?
    ensures n.type_ == NameType.Default ==> Untyped(DisplayStem(n))
  {
    var versioned := LabelledTail(n);
    var stem := DisplayStem(n);
    var enc := n.encoding.value;
    if n.type_ == NameType.Default {
      UntypedAfterWord(versioned, enc);
      assert stem + NameType.Display(n.type_) == stem;
      if n.shard.count == 1 {
        NoShardAfterWord(versioned, enc);
      }
    } else {
      var typed := stem + NameType.Display(n.type_);
      assert typed[|typed| - 1] == NameType.Display(n.type_)[|NameType.Display(n.type_)| - 1];
      NoShardAfterLetter(typed);
    }
  }

  /** Both parses read a name whose stages find a size label into the same parts. */
  lemma LabelledParsed(s: string, stem: string, t: NameType.Type, shard: Shard, tail: Tail)
    requires tail.Labelled? && StagesOf(s) == Split(stem, t, shard, tail)
    ensures Parse(s) == ParseAsWritten(s)
         == Named(FileName(tail.base, Some(tail.size), tail.fineTune, tail.version, Some(tail.encoding), t, shard))
  {
  }

  /** The parts of a labelled name print as the patterns read them. */
  predicate PrintsLabelled(n: FileName)
  {
    && n.sizeLabel.Some? && n.encoding.Some?
    && '-' !in n.baseName && IsUnit(n.sizeLabel.value.l) && AllWord(n.fineTune)
    && '-' !in n.encoding.value
  }

  /** The tail stage reads a labelled name's stem back into its base, size label, fine-tune,
      version and encoding; versioned is the stem without `-` and the encoding. */
  lemma LabelledTail(n: FileName) returns (versioned: string)
    requires PrintsLabelled(n)
    ensures DisplayStem(n) == versioned + "-" + n.encoding.value
    ensures TailStage(DisplayStem(n)) == Done(Labelled(n.baseName, n.sizeLabel.value, n.fineTune, n.version, n.encoding.value))
  {
    var l, enc := n.sizeLabel.value, n.encoding.value;
    var core := "-" + SizeLabelDisplay(l);
    var sized := core + FineTuneText(n.fineTune);
    var head := n.baseName + sized;
    SizeRoundTrip(l, n.fineTune);
    SizeCaptured(n.baseName, sized);
    match n.version {
      case Some(v) =>
        versioned := head + ("-" + NameVersion.Display(v));
        VersionRoundTrip(head, v);
      case None =>
        versioned := head + "";
        assert versioned == head;
        assert core[|core| - 1] == l.l;
        NoVersionAfterFineTune(n.baseName, core, n.fineTune);
    }
    Regroup(n.baseName, core, FineTuneText(n.fineTune), VersionPiece(n), enc);
    RSplitLast(versioned, enc);
    var stem := DisplayStem(n);
    assert RSplitOnce(stem, '-') == Some((versioned, enc));
    assert VersionStage(versioned) == Done((head, n.version));
    assert SizeCapture(head) == Some((n.baseName, SizeDigits(l, n.fineTune)));
  }

  /** Regrouping the printed pieces of a labelled name. */
  lemma Regroup(a: string, b: string, c: string, d: string, e: string)
    ensures a + b + c + d + ("-" + e) == a + (b + c) + d + "-" + e
  {
  }

  // ---------------------------------------------------------------- examples

  /** Names that do not end in `.gguf` are refused, however close they come. */
  lemma ExtErrors()
    ensures ParseAsWritten("test-cases-00002-of-00005") == ExtNotMatch
    ensures ParseAsWritten("test-cases-00002-of-00005.ggufx") == ExtNotMatch
    ensures ParseAsWritten("test-cases-00002-of-00005.gguf.") == ExtNotMatch
    ensures ParseAsWritten("test-cases-00002-of-00005.gguf.abc") == ExtNotMatch
    ensures ParseAsWritten("model.bin") == ExtNotMatch
  {
    var a := "test-cases-00002-of-00005";
    assert a[|a| - 5..][0] == '0';
    var b := "test-cases-00002-of-00005.ggufx";
    assert b[|b| - 5..][0] == 'g';
    var c := "test-cases-00002-of-00005.gguf.";
    assert c[|c| - 5..][0] == 'g';
    var d := "test-cases-00002-of-00005.gguf.abc";
    assert d[|d| - 5..][0] == 'f';
    var e := "model.bin";
    assert e[|e| - 5..][0] == 'l';
  }

  /** The shard suffix of the five-digit numbers 2 and 5. */
  lemma ShardTextOf2Of5()
    ensures ShardText(2, 5) == "-00002-of-00005"
  {
    assert Dec(2) == "2" && Dec(5) == "5";
    assert Zeros(4) == "0000";
  }

  /** The texts of the shard example, as the pieces Display prints. */
  lemma TestCasesTexts()
    ensures "test-cases-00002-of-00005.gguf" == "test-cases" + ShardText(2, 5) + EXT
    ensures "test-00002-of-00005.gguf" == "test" + ShardText(2, 5) + EXT
    ensures "test-cases" == "test" + "-" + "cases"
  {
    ShardTextOf2Of5();
  }

  /** try_from as written loses the `-cases` of `test-cases-00002-of-00005.gguf`: with no size
      label found, the base is the text before the last `-`, and the name prints back as
      `test-00002-of-00005.gguf`. */
  lemma BaseNameLost()
    ensures ParseAsWritten("test-cases-00002-of-00005.gguf")
         == Named(FileName("test", None, "", None, None, NameType.Default, Shard(2, 5)))
    ensures Display(FileName("test", None, "", None, None, NameType.Default, Shard(2, 5)))
         == "test-00002-of-00005.gguf"
  {
    TestCasesTexts();
    TwoWordsSharded("test", "cases", 2, 5);
  }

  /** The corrected parse keeps the whole base of `test-cases-00002-of-00005.gguf`, which then
      prints back as the same text. */
  lemma BaseNameKept()
    ensures Parse("test-cases-00002-of-00005.gguf")
         == Named(FileName("test-cases", None, "", None, None, NameType.Default, Shard(2, 5)))
    ensures Display(FileName("test-cases", None, "", None, None, NameType.Default, Shard(2, 5)))
         == "test-cases-00002-of-00005.gguf"
  {
    TestCasesTexts();
    TwoWordsSharded("test", "cases", 2, 5);
  }

  /** A sharded name whose base is two words and no size label: try_from as written keeps the
      first word only, the corrected parse both, and only the latter prints back as the text. */
  lemma TwoWordsSharded(head: string, word: string, index: NonZeroU32, count: NonZeroU32)
    requires '-' !in head && '-' !in word && word != "vocab" && word != "LoRA" && !(|word| == 5 && AllDigits(word))
    requires 2 <= count < 100000 && index < 100000
    ensures ParseAsWritten(head + "-" + word + ShardText(index, count) + EXT)
         == Named(FileName(head, None, "", None, None, NameType.Default, Shard(index, count)))
    ensures Parse(head + "-" + word + ShardText(index, count) + EXT)
         == Named(FileName(head + "-" + word, None, "", None, None, NameType.Default, Shard(index, count)))
    ensures Display(FileName(head, None, "", None, None, NameType.Default, Shard(index, count)))
         == head + ShardText(index, count) + EXT
    ensures Display(FileName(head + "-" + word, None, "", None, None, NameType.Default, Shard(index, count)))
         == head + "-" + word + ShardText(index, count) + EXT
  {
    TwoWordsAsWritten(head, word, index, count);
    TwoWordsParsed(head, word, index, count);
    PlainDisplay(FileName(head, None, "", None, None, NameType.Default, Shard(index, count)));
  }

  /** try_from as written on a sharded two-word base keeps the first word only. */
  lemma TwoWordsAsWritten(head: string, word: string, index: NonZeroU32, count: NonZeroU32)
    requires '-' !in head && '-' !in word && word != "vocab" && word != "LoRA" && !(|word| == 5 && AllDigits(word))
    requires 2 <= count < 100000 && index < 100000
    ensures ParseAsWritten(head + "-" + word + ShardText(index, count) + EXT)
         == Named(FileName(head, None, "", None, None, NameType.Default, Shard(index, count)))
  {
    TwoWordsStages(head, word);
    ShardSuffixStripped(head + "-" + word, index, count);
  }

  /** A two-word base with the extension after it is split with the first word as its rest. */
  lemma TwoWordsStages(head: string, word: string)
    requires '-' !in head && '-' !in word && word != "vocab" && word != "LoRA" && !(|word| == 5 && AllDigits(word))
    ensures ShardCapture(head + "-" + word).None?
    ensures StagesOf(head + "-" + word + EXT) == Split(head + "-" + word, NameType.Default, DEFAULT_SHARD, Unlabelled(head))
  {
    MissingTail(head + "-" + word, head, word);
    SingleStages(head + "-" + word);
  }

  /** The corrected parse on a sharded two-word base: both words, printed back as the text. */
  lemma TwoWordsParsed(head: string, word: string, index: NonZeroU32, count: NonZeroU32)
    requires '-' !in head && '-' !in word && word != "vocab" && word != "LoRA" && !(|word| == 5 && AllDigits(word))
    requires 2 <= count < 100000 && index < 100000
    ensures Parse(head + "-" + word + ShardText(index, count) + EXT)
         == Named(FileName(head + "-" + word, None, "", None, None, NameType.Default, Shard(index, count)))
    ensures Display(FileName(head + "-" + word, None, "", None, None, NameType.Default, Shard(index, count)))
         == head + "-" + word + ShardText(index, count) + EXT
  {
    var stem := head + "-" + word;
    var n := FileName(stem, None, "", None, None, NameType.Default, Shard(index, count));
    MissingTail(stem, head, word);
    PlainRoundTrip(n);
    PlainDisplay(n);
  }

  /** A stem without shard or type suffix, with the extension after it, goes through the
      shard and type stages unchanged. */
  lemma SingleStages(stem: string)
    requires ShardCapture(stem).None? && Untyped(stem) && TailStage(stem).Done?
    ensures StagesOf(stem + EXT) == Split(stem, NameType.Default, DEFAULT_SHARD, TailStage(stem).value)
  {
    StripAppended(stem, EXT);
  }

  /** A base of two words is not read as carrying a size label or a type. */
  lemma MissingTail(stem: string, head: string, word: string)
    requires stem == head + "-" + word && '-' !in head && '-' !in word
    requires word != "vocab" && word != "LoRA" && !(|word| == 5 && AllDigits(word))
    ensures Untyped(stem) && TailStage(stem) == Done(Unlabelled(head)) && ShardCapture(stem).None?
  {
    UntypedAfterWord(head, word);
    NoShardAfterWord(head, word);
    RSplitLast(head, word);
    NoVersionWithoutDash(head);
    NoSizeWithoutDash(head);
  }

  /** A plain name prints as its base, its type, its shard and the extension. */
  lemma PlainDisplay(n: FileName)
    requires Plain(n)
    ensures Display(n) == n.baseName + NameType.Display(n.type_) + ShardDisplay(n.shard) + EXT
    ensures n.type_ == NameType.Default ==> Display(n) == n.baseName + ShardDisplay(n.shard) + EXT
  {
    assert DisplayStem(n) == n.baseName;
    assert n.type_ == NameType.Default ==> DisplayStem(n) + NameType.Display(n.type_) == n.baseName;
  }

  /** A text without `-` ends in neither a type nor a shard suffix. */
  lemma NoSuffixWithoutDash(x: string)
    requires '-' !in x
    ensures Untyped(x) && ShardCapture(x).None?
  {
    assert |x| >= 6 ==> x[|x| - 6] != '-';
    assert |x| >= 5 ==> x[|x| - 5] != '-';
    assert |x| >= 15 ==> x[|x| - 15] != '-';
  }

  /** A single-file name of one word and a type is read back whole by both parses, as in
      `tokenizer-vocab.gguf`, `adapter-LoRA.gguf` and `mmproj.gguf`. */
  lemma OneWordRoundTrip(base: string, t: NameType.Type)
    requires '-' !in base
    ensures Parse(base + NameType.Display(t) + EXT) == ParseAsWritten(base + NameType.Display(t) + EXT)
         == Named(FileName(base, None, "", None, None, t, DEFAULT_SHARD))
    ensures Display(FileName(base, None, "", None, None, t, DEFAULT_SHARD)) == base + NameType.Display(t) + EXT
  {
    var n := FileName(base, None, "", None, None, t, DEFAULT_SHARD);
    NoSuffixWithoutDash(base);
    if t == NameType.Default {
      assert base + NameType.Display(t) == base;
    } else {
      var typed := base + NameType.Display(t);
      assert typed[|typed| - 1] == NameType.Display(t)[|NameType.Display(t)| - 1];
      NoShardAfterLetter(typed);
    }
    PlainDisplay(n);
    assert Display(n) == base + NameType.Display(t) + EXT;
    PlainRoundTrip(n);
    PlainRoundTripAsWritten(n);
  }

  /** The names of the type examples: `tokenizer-vocab.gguf` is the vocabulary `tokenizer`
      and `adapter-LoRA.gguf` the LoRA adapter `adapter`, and both print back as themselves. */
  lemma TypeExamples()
    ensures Parse("tokenizer-vocab.gguf") == ParseAsWritten("tokenizer-vocab.gguf")
         == Named(FileName("tokenizer", None, "", None, None, NameType.Vocab, DEFAULT_SHARD))
    ensures Display(FileName("tokenizer", None, "", None, None, NameType.Vocab, DEFAULT_SHARD)) == "tokenizer-vocab.gguf"
    ensures Parse("adapter-LoRA.gguf") == ParseAsWritten("adapter-LoRA.gguf")
         == Named(FileName("adapter", None, "", None, None, NameType.LoRA, DEFAULT_SHARD))
    ensures Display(FileName("adapter", None, "", None, None, NameType.LoRA, DEFAULT_SHARD)) == "adapter-LoRA.gguf"
  {
    TypeTexts();
    OneWordRoundTrip("tokenizer", NameType.Vocab);
    OneWordRoundTrip("adapter", NameType.LoRA);
  }

  lemma TypeTexts()
    ensures "tokenizer-vocab.gguf" == "tokenizer" + NameType.Display(NameType.Vocab) + EXT
    ensures "adapter-LoRA.gguf" == "adapter" + NameType.Display(NameType.LoRA) + EXT
  {
  }

  /** `Default`: the single file `model.gguf`, read back as itself. */
  lemma DefaultRoundTrip()
    ensures Display(Default()) == "model.gguf"
    ensures Parse("model.gguf") == ParseAsWritten("model.gguf") == Named(Default())
  {
    assert "model.gguf" == "model" + NameType.Display(NameType.Default) + EXT;
    OneWordRoundTrip("model", NameType.Default);
  }

  /** The name `model-2x7.5B-F16.gguf` holds: base `model`, size label 2x7.5B and
      encoding `F16`. */
  const MIXTURE: FileName :=
    FileName("model", Some(SizeLabel(2, 7, 5, 'B')), "", None, Some("F16"), NameType.Default, DEFAULT_SHARD)

  /** The labelled example `model-2x7.5B-F16.gguf` is read back as `MIXTURE`, which prints
      as it was. */
  lemma SizeExample()
    ensures Parse("model-2x7.5B-F16.gguf") == ParseAsWritten("model-2x7.5B-F16.gguf") == Named(MIXTURE)
  {
    SizeExampleText();
    LabelledRoundTrip(MIXTURE);
  }

  lemma SizeExampleText()
    ensures Display(MIXTURE) == "model-2x7.5B-F16.gguf"
  {
    MixtureLabelText();
    SingleDisplay(MIXTURE);
    assert FineTuneText("") == "";
    MixtureText();
  }

  lemma MixtureText()
    ensures "model-2x7.5B-F16.gguf" == "model" + ("-" + "2x7.5B") + "" + "" + ("-" + "F16") + EXT
  {
  }

  /** A single file of the default type prints as its stem and the extension. */
  lemma SingleDisplay(n: FileName)
    requires n.type_ == NameType.Default && n.shard == DEFAULT_SHARD
    ensures Display(n) == DisplayStem(n) + EXT
  {
  }

  lemma MixtureLabelText()
    ensures SizeLabelDisplay(SizeLabel(2, 7, 5, 'B')) == "2x7.5B"
  {
    assert Dec(2) == "2" && Dec(7) == "7" && Dec(5) == "5";
    assert MultiplierOf("2") == "2x" && FractionOf("5") == ".5";
  }

  /** The name `TinyLlama-1.1B-Chat-v1.0-Q8_0.gguf` holds: a size label with a
      fraction, a fine-tune and a version before the encoding. */
  const TINY_LLAMA: FileName :=
    FileName("TinyLlama", Some(SizeLabel(1, 1, 1, 'B')), "Chat", Some(NameVersion.Version(1, 0)),
             Some("Q8_0"), NameType.Default, DEFAULT_SHARD)

  /** `TinyLlama-1.1B-Chat-v1.0-Q8_0.gguf` is read back as `TINY_LLAMA`, which
      prints as it was. */
  lemma VersionExample()
    ensures Parse("TinyLlama-1.1B-Chat-v1.0-Q8_0.gguf") == ParseAsWritten("TinyLlama-1.1B-Chat-v1.0-Q8_0.gguf")
         == Named(TINY_LLAMA)
  {
    VersionExampleText();
    LabelledRoundTrip(TINY_LLAMA);
  }

  lemma VersionExampleText()
    ensures Display(TINY_LLAMA) == "TinyLlama-1.1B-Chat-v1.0-Q8_0.gguf"
  {
    TinyLlamaLabels();
    SingleDisplay(TINY_LLAMA);
    TinyLlamaText();
  }

  lemma TinyLlamaLabels()
    ensures SizeLabelDisplay(SizeLabel(1, 1, 1, 'B')) == "1.1B"
    ensures NameVersion.Display(NameVersion.Version(1, 0)) == "v1.0"
  {
    assert Dec(1) == "1" && Dec(0) == "0";
    assert MultiplierOf("") == "" && FractionOf("1") == ".1";
  }

  lemma TinyLlamaText()
    ensures "TinyLlama-1.1B-Chat-v1.0-Q8_0.gguf"
         == "TinyLlama" + ("-" + "1.1B") + ("-" + "Chat") + ("-" + "v1.0") + ("-" + "Q8_0") + EXT
  {
  }

  // ---------------------------------------------------------------- merge_shards

  /** The loop of merge_shards over the names after the first, seen holding the positions
      already marked: a name that differs from the first in a field or in its count ends the
      merge with None, one whose position is past the count makes the indexing panic, one at
      a position already marked ends it with None. */
  function ScanShards(first: FileName, rest: seq<FileName>, seen: set<nat>): Run<Option<FileName>>
    decreases |rest|
  {
    if rest == [] then Done(Some(IntoSingle(first)))
    else
      var n := rest[0];
      if !SameFields(n, first) || ShardCount(n) != ShardCount(first) then Done(None)
      else if ShardIndex(n) >= ShardCount(first) then Panicked
      else if ShardIndex(n) in seen then Done(None)
      else ScanShards(first, rest[1..], seen + {ShardIndex(n)})
  }

  /** `merge_shards`: None for no names; otherwise the first name's position is marked (a
      panic when it is past its count) and the rest are scanned. */
  function Merge(names: seq<FileName>): Run<Option<FileName>>
  {
    if names == [] then Done(None)
    else if ShardIndex(names[0]) >= ShardCount(names[0]) then Panicked
    else ScanShards(names[0], names[1..], {ShardIndex(names[0])})
  }

  /** `merge_shards`, marking the positions seen in a vector of flags. */
  method MergeShards(names: seq<FileName>) returns (r: Run<Option<FileName>>)
    ensures r == Merge(names)
  {
    if names == [] {
      return Done(None);
    }
    var first := names[0];
    var shards := new bool[ShardCount(first)](_ => false);
    if ShardIndex(first) >= shards.Length {
      return Panicked;
    }
    shards[ShardIndex(first)] := true;
    ghost var seen: set<nat> := {ShardIndex(first)};
    var i := 1;
    while i < |names|
      invariant 1 <= i <= |names|
      invariant forall k :: 0 <= k < shards.Length ==> (shards[k] <==> k in seen)
      invariant forall k :: k in seen ==> k < shards.Length
      invariant Merge(names) == ScanShards(first, names[i..], seen)
    {
      var name := names[i];
      assert names[i..][0] == name && names[i..][1..] == names[i + 1..];
      if !SameFields(name, first) || ShardCount(name) != ShardCount(first) {
        return Done(None);
      }
      if ShardIndex(name) >= shards.Length {
        return Panicked;
      }
      if shards[ShardIndex(name)] {
        return Done(None);
      }
      shards[ShardIndex(name)] := true;
      seen := seen + {ShardIndex(name)};
      i := i + 1;
    }
    assert names[i..] == [];
    return Done(Some(IntoSingle(first)));
  }

  /** Every name's shard lies within its own count. */
  predicate InRange(names: seq<FileName>)
  {
    forall i :: 0 <= i < |names| ==> names[i].shard.index <= names[i].shard.count
  }

  /** Every name agrees with first on every field but the shard, and on the shard count. */
  predicate AgreeWith(first: FileName, names: seq<FileName>)
  {
    forall i :: 0 <= i < |names| ==> SameFields(names[i], first) && names[i].shard.count == first.shard.count
  }

  /** No two names are the same shard. */
  predicate DistinctShards(names: seq<FileName>)
  {
    forall i, j :: 0 <= i < j < |names| ==> names[i].shard.index != names[j].shard.index
  }

  /** No name is at a position in seen. */
  predicate Unseen(names: seq<FileName>, seen: set<nat>)
  {
    forall i :: 0 <= i < |names| ==> ShardIndex(names[i]) !in seen
  }

  lemma {:induction false} ScanInRange(first: FileName, rest: seq<FileName>, seen: set<nat>)
    requires InRange(rest)
    ensures ScanShards(first, rest, seen)
         == if AgreeWith(first, rest) && DistinctShards(rest) && Unseen(rest, seen) then Done(Some(IntoSingle(first)))
            else Done(None)
    decreases |rest|
  {
    if rest != [] {
      var n, tail := rest[0], rest[1..];
      AgreeCons(first, rest);
      FreshCons(rest, seen);
      assert InRange(tail) by {
        assert forall i :: 0 <= i < |tail| ==> tail[i] == rest[i + 1];
      }
      ScanInRange(first, tail, seen + {ShardIndex(n)});
    }
  }

  /** A run of names agrees with first when its head does and its tail does. */
  lemma AgreeCons(first: FileName, rest: seq<FileName>)
    requires rest != []
    ensures AgreeWith(first, rest)
        <==> SameFields(rest[0], first) && rest[0].shard.count == first.shard.count && AgreeWith(first, rest[1..])
  {
    var tail := rest[1..];
    if !AgreeWith(first, rest) && SameFields(rest[0], first) && rest[0].shard.count == first.shard.count {
      var i :| 0 <= i < |rest| && !(SameFields(rest[i], first) && rest[i].shard.count == first.shard.count);
      assert tail[i - 1] == rest[i];
    }
  }

  /** A run of names holds distinct shards none of which is in seen when its head is not in
      seen and its tail holds distinct shards none of which is in seen or is the head's. */
  lemma FreshCons(rest: seq<FileName>, seen: set<nat>)
    requires rest != []
    ensures DistinctShards(rest) && Unseen(rest, seen)
        <==> ShardIndex(rest[0]) !in seen && DistinctShards(rest[1..]) && Unseen(rest[1..], seen + {ShardIndex(rest[0])})
  {
    var n, tail := rest[0], rest[1..];
    var seen' := seen + {ShardIndex(n)};
    if ShardIndex(n) !in seen && DistinctShards(tail) && Unseen(tail, seen') {
      forall i, j | 0 <= i < j < |rest|
        ensures rest[i].shard.index != rest[j].shard.index
      {
        if i == 0 {
          assert ShardIndex(rest[j]) !in seen';
        } else {
          assert tail[i - 1] == rest[i] && tail[j - 1] == rest[j];
        }
      }
      forall i | 0 <= i < |rest|
        ensures ShardIndex(rest[i]) !in seen
      {
        if i > 0 { assert tail[i - 1] == rest[i]; }
      }
    }
    if DistinctShards(rest) && Unseen(rest, seen) {
      forall i, j | 0 <= i < j < |tail|
        ensures tail[i].shard.index != tail[j].shard.index
      {
        assert rest[i + 1] == tail[i] && rest[j + 1] == tail[j];
      }
      forall i | 0 <= i < |tail|
        ensures ShardIndex(tail[i]) !in seen'
      {
        assert rest[i + 1] == tail[i];
        assert rest[0].shard.index != rest[i + 1].shard.index;
      }
    }
  }

  /** When every shard lies within its count, merge_shards merges exactly the lists of names
      that agree on everything but the shard, agree on the count and are distinct shards:
      the result is the first name as a single file, and None otherwise (also for no names). */
  lemma MergeInRange(names: seq<FileName>)
    requires InRange(names)
    ensures Merge(names)
         == if names != [] && AgreeWith(names[0], names) && DistinctShards(names) then Done(Some(IntoSingle(names[0])))
            else Done(None)
  {
    if names != [] {
      var first, tail := names[0], names[1..];
      assert InRange(tail) by {
        assert forall i :: 0 <= i < |tail| ==> tail[i] == names[i + 1];
      }
      ScanInRange(first, tail, {ShardIndex(first)});
      AgreeCons(first, names);
      FreshCons(names, {});
      assert {} + {ShardIndex(first)} == {ShardIndex(first)};
    }
  }

  /** merge_shards panics only when some name's shard lies past its count. */
  lemma MergePanics(names: seq<FileName>)
    requires Merge(names).Panicked?
    ensures exists i :: 0 <= i < |names| && names[i].shard.index > names[i].shard.count
  {
    if !exists i :: 0 <= i < |names| && names[i].shard.index > names[i].shard.count {
      MergeInRange(names);
    }
  }

  /** merge_shards does not check that all the shards are there: shard 2 of 5 on its own
      already merges into the single file. */
  lemma MissingShardsMerge(n: FileName)
    requires n.shard == Shard(2, 5)
    ensures Merge([n]) == Done(Some(IntoSingle(n)))
  {
    MergeInRange([n]);
  }

  // ---------------------------------------------------------------- iteration

  /** One call of `next`: while the index is within the count, the name is yielded and the
      index moves on (`checked_add(1).unwrap()` panics past `u32::MAX`); after that, None. */
  function NextStep(n: FileName): (r: Run<(Option<FileName>, FileName)>)
  {
    if n.shard.index <= n.shard.count then
      if n.shard.index == U32_MAX then Panicked
      else Done((Some(n), n.(shard := n.shard.(index := n.shard.index + 1))))
    else Done((None, n))
  }

  /** A name read as an iterator over the shards that follow it: `Iterator for GGufFileName`
      mutates the shard of the name it is called on. */
  class NameIterator {
    var name: FileName

    constructor (n: FileName)
      ensures name == n
    {
      name := n;
    }

    /** `next`. */
    method Next() returns (r: Run<Option<FileName>>)
      modifies this
      ensures r.Panicked? <==> NextStep(old(name)).Panicked?
      ensures r.Done? ==> r.value == NextStep(old(name)).value.0 && name == NextStep(old(name)).value.1
    {
      if name.shard.index <= name.shard.count {
        var ans := name;
        if name.shard.index == U32_MAX {
          return Panicked;
        }
        name := name.(shard := name.shard.(index := name.shard.index + 1));
        return Done(Some(ans));
      } else {
        return Done(None);
      }
    }
  }

  /** What repeated calls of `next` yield before the first None. */
  function Yields(n: FileName): Run<seq<FileName>>
    decreases if n.shard.index <= n.shard.count then n.shard.count + 1 - n.shard.index else 0
  {
    match NextStep(n)
    case Panicked => Panicked
    case Done((None, _)) => Done([])
    case Done((Some(x), m)) =>
      match Yields(m)
      case Panicked => Panicked
      case Done(xs) => Done([x] + xs)
  }

  /** From shard i of c, with c below `u32::MAX`, the iterator yields the c - i + 1 names of
      shards i to c, all otherwise the same name. */
  lemma {:induction false} YieldsAll(n: FileName)
    requires n.shard.index <= n.shard.count < U32_MAX
    ensures Yields(n).Done? && |Yields(n).value| == n.shard.count - n.shard.index + 1
    ensures forall k :: 0 <= k < |Yields(n).value| ==>
              Yields(n).value[k] == n.(shard := n.shard.(index := n.shard.index + k))
    decreases n.shard.count - n.shard.index
  {
    var m := n.(shard := n.shard.(index := n.shard.index + 1));
    if m.shard.index <= m.shard.count {
      YieldsAll(m);
      var xs := Yields(m).value;
      assert Yields(n).value == [n] + xs;
      forall k | 0 <= k < |Yields(n).value|
        ensures Yields(n).value[k] == n.(shard := n.shard.(index := n.shard.index + k))
      {
        if k > 0 {
          assert Yields(n).value[k] == xs[k - 1];
        }
      }
    } else {
      assert Yields(m) == Done([]);
    }
  }

  /** With count `u32::MAX`, the iterator panics once it reaches the last shard. */
  lemma {:induction false} YieldsOverflow(n: FileName)
    requires n.shard.index <= n.shard.count == U32_MAX
    ensures Yields(n).Panicked?
    decreases n.shard.count - n.shard.index
  {
    if n.shard.index < U32_MAX {
      YieldsOverflow(n.(shard := n.shard.(index := n.shard.index + 1)));
    }
  }

  /** Past its count, the iterator yields nothing and stays where it is. */
  lemma Exhausted(n: FileName)
    requires n.shard.index > n.shard.count
    ensures NextStep(n) == Done((None, n)) && Yields(n) == Done([])
  {
  }

  /** The iterator example: `split_n(5)` of a name and then iterating yields five names, of
      shards 1 to 5 of 5. */
  lemma SplitThenIterate(n: FileName)
    ensures SplitN(n, 5).Done?
    ensures var split := SplitN(n, 5).value;
      Yields(split).Done? && |Yields(split).value| == 5
      && forall k :: 0 <= k < 5 ==> Yields(split).value[k].shard == Shard(k + 1, 5) && SameFields(Yields(split).value[k], n)
  {
    YieldsAll(SplitN(n, 5).value);
  }

  /** Iterating over all the shards of a name and merging what comes out gives the name back
      as a single file: the shards yielded are in range, agree and are distinct. */
  lemma IterateThenMerge(n: FileName)
    requires n.shard.count < U32_MAX
    ensures Yields(IterAll(n)).Done?
    ensures Merge(Yields(IterAll(n)).value) == Done(Some(IntoSingle(n)))
  {
    var all := IterAll(n);
    YieldsAll(all);
    var names := Yields(all).value;
    assert names[0] == all;
    assert InRange(names);
    assert AgreeWith(names[0], names);
    assert DistinctShards(names);
    MergeInRange(names);
  }
}
