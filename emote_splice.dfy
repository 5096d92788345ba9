/**
 * The emote half of TwitchChatHandler.onTwitchChat: Twitch's positional
 * emote tag (entries `id:start-end,start-end,...`) is read entry by entry,
 * every occurrence of a known emote has its character range replaced by a
 * run of spaces as wide as the emote image, and the output position of each
 * run is recorded as an emote image.
 *
 * The emote lookup TwitchAPI.getEmoteById is the map `widths` from emote id
 * to the emote's width in spaces; an id outside the map is an unknown emote.
 * Where the source throws (`Integer.parseInt` rejects a number, or
 * `message.substring` is given a bad index) the outcome is None.
 */
module EmoteSplice {
  import opened Strings
  import opened Options

  /** One usable occurrence: the message range [start, end] and the emote drawn there. */
  datatype EmoteRange = EmoteRange(start: int, end: int, id: int, width: nat)

  /** A ChatImageEmote: where the image sits in the output text, and which emote it is. */
  datatype EmoteImage = EmoteImage(index: nat, id: int, width: nat)

  /** The spliced message and the emote images recorded for it. */
  datatype Spliced = Spliced(text: string, images: seq<EmoteImage>)

  // ---------------------------------------------------------------------
  // Reading the tag
  // ---------------------------------------------------------------------

  /** Two reads one after the other: None when either threw. */
  function Concat<U>(a: Option<seq<U>>, b: Option<seq<U>>): Option<seq<U>> {
    if a.Some? && b.Some? then Some(a.value + b.value) else None
  }

  /**
   * `f` applied to each element of `xs`, the results concatenated in order;
   * it succeeds exactly when every application succeeds.
   */
  function Collect<T, U>(f: T -> Option<seq<U>>, xs: seq<T>): (r: Option<seq<U>>)
    ensures r.Some? <==> forall i :: 0 <= i < |xs| ==> f(xs[i]).Some?
  {
    if xs == [] then Some([])
    else
      var rest := Collect(f, xs[1..]);
      assert forall i :: 1 <= i < |xs| ==> xs[i] == xs[1..][i - 1];
      Concat(f(xs[0]), rest)
  }

  lemma {:induction false} CollectAppend<T, U>(f: T -> Option<seq<U>>, a: seq<T>, b: seq<T>)
    ensures Collect(f, a + b) == Concat(Collect(f, a), Collect(f, b))
  {
    if a == [] {
      assert a + b == b;
      var z := Collect(f, b);
      assert z.Some? ==> [] + z.value == z.value;
    } else {
      assert (a + b)[0] == a[0] && (a + b)[1..] == a[1..] + b;
      CollectAppend(f, a[1..], b);
      var x, y, z := f(a[0]), Collect(f, a[1..]), Collect(f, b);
      if x.Some? && y.Some? && z.Some? {
        assert x.value + (y.value + z.value) == (x.value + y.value) + z.value;
      }
    }
  }

  /** The end of an occurrence whose start has been read (TwitchChatHandler.java:72): None when it does not parse. */
  function ReadEnd(start: int, end: string, id: int, width: nat): Option<seq<EmoteRange>>
  {
    match ParseInt(end)
    case None => None
    case Some(e) => Some([EmoteRange(start, e, id, width)])
  }

  /**
   * One occurrence `start-end` (TwitchChatHandler.java:65-72): both sides of
   * the first `-`, read by `Integer.parseInt`; None when either side does
   * not parse, and no range at all when there is no `-`.
   */
  function ReadPiece(piece: string, id: int, width: nat): Option<seq<EmoteRange>>
  {
    var dash := IndexOf(piece, '-');
    if dash == -1 then Some([])
    else
      match ParseInt(piece[..dash])
      case None => None
      case Some(start) => ReadEnd(start, piece[dash + 1..], id, width)
  }

  function PieceReader(id: int, width: nat): string -> Option<seq<EmoteRange>>
  {
    piece => ReadPiece(piece, id, width)
  }

  /** The occurrences of one known emote, in order. */
  function ReadPieces(pieces: seq<string>, id: int, width: nat): Option<seq<EmoteRange>>
  {
    Collect(PieceReader(id, width), pieces)
  }

  /**
   * One entry `id:occurrences` (TwitchChatHandler.java:56-63): None when the
   * id does not parse, no range without a `:` or for an unknown emote (a
   * negative id is one), else the emote's occurrences.
   */
  function ReadEntry(entry: string, widths: map<int, nat>): Option<seq<EmoteRange>>
  {
    var colon := IndexOf(entry, ':');
    if colon == -1 then Some([])
    else
      var id := ParseInt(entry[..colon]);
      if id.None? then None
      else if id.value !in widths then Some([])
      else ReadPieces(Split(entry[colon + 1..], ','), id.value, widths[id.value])
  }

  function EntryReader(widths: map<int, nat>): string -> Option<seq<EmoteRange>>
  {
    entry => ReadEntry(entry, widths)
  }

  /** All usable occurrences, in the order the source visits them (grouped by entry); None when a number does not parse. */
  function ReadTag(emotes: seq<string>, widths: map<int, nat>): Option<seq<EmoteRange>>
  {
    Collect(EntryReader(widths), emotes)
  }

  // ---------------------------------------------------------------------
  // Splicing, one occurrence at a time (the state of the source's loops)
  // ---------------------------------------------------------------------

  /** `index` into the message, the `StringBuilder` contents, and `tmpEmotes`. */
  datatype SpliceState = SpliceState(index: int, text: string, images: seq<EmoteImage>)

  const Start := SpliceState(0, "", [])

  /** `message.substring(index, start)` is called (only when `index < start`) and throws. */
  predicate CopyThrows(message: string, index: int, start: int) {
    index < start && (index < 0 || start > |message|)
  }

  /**
   * One occurrence (TwitchChatHandler.java:67-77): copy the text up to its
   * start, then its run of spaces, record the image, and move `index` past
   * the end with Java's wrapping `end + 1`.
   */
  function Step(message: string, st: SpliceState, r: EmoteRange): (next: Option<SpliceState>)
    ensures next.None? <==> CopyThrows(message, st.index, r.start)
  {
    if CopyThrows(message, st.index, r.start) then None
    else
      var text := if st.index < r.start then st.text + message[st.index..r.start] else st.text;
      Some(SpliceState(ToInt32(r.end + 1), text + Spaces(r.width), st.images + [EmoteImage(|text|, r.id, r.width)]))
  }

  /**
   * A step that does not throw moves `index` past the end (wrapping as Java
   * does), extends the text, ends it with the emote's run of spaces, and
   * records one image where that run begins.
   */
  lemma StepExtends(message: string, st: SpliceState, r: EmoteRange)
    requires Step(message, st, r).Some?
    ensures var next := Step(message, st, r).value;
      && next.index == ToInt32(r.end + 1)
      && |st.text| + r.width <= |next.text|
      && next.text[..|st.text|] == st.text
      && next.text[|next.text| - r.width..] == Spaces(r.width)
      && next.images == st.images + [EmoteImage(|next.text| - r.width, r.id, r.width)]
  {
    var text := if st.index < r.start then st.text + message[st.index..r.start] else st.text;
    var out := text + Spaces(r.width);
    assert out[..|st.text|] == st.text;
    assert out[|out| - r.width..] == Spaces(r.width);
  }

  /** The occurrences in turn, None as soon as one throws. */
  function Run(message: string, st: SpliceState, rs: seq<EmoteRange>): (out: Option<SpliceState>)
    decreases rs
  {
    if rs == [] then Some(st)
    else
      match Step(message, st, rs[0])
      case None => None
      case Some(next) => Run(message, next, rs[1..])
  }

  /**
   * What a run that does not throw leaves behind extends the text and the
   * images it started from, by one image per occurrence, and `index` is past
   * the last end.
   */
  lemma {:induction false} RunExtends(message: string, st: SpliceState, rs: seq<EmoteRange>)
    requires Run(message, st, rs).Some?
    ensures var out := Run(message, st, rs).value;
      && |out.images| == |st.images| + |rs|
      && out.images[..|st.images|] == st.images
      && |st.text| <= |out.text| && out.text[..|st.text|] == st.text
      && (rs != [] ==> out.index == ToInt32(rs[|rs| - 1].end + 1))
    decreases rs
  {
    if rs != [] {
      var next := Step(message, st, rs[0]).value;
      StepExtends(message, st, rs[0]);
      RunExtends(message, next, rs[1..]);
      var out := Run(message, next, rs[1..]).value;
      assert out.images[..|st.images|] == out.images[..|next.images|][..|st.images|];
      assert out.text[..|st.text|] == out.text[..|next.text|][..|st.text|];
      if |rs| > 1 {
        assert rs[1..][|rs[1..]| - 1] == rs[|rs| - 1];
      }
    }
  }

  /**
   * After the loops (TwitchChatHandler.java:82-84): copy what is left of the
   * message; this throws exactly when `index` is negative.
   */
  function Finish(message: string, st: SpliceState): (out: Option<Spliced>)
    ensures out.None? <==> st.index < 0
    ensures out.Some? ==> out.value.images == st.images && |st.text| <= |out.value.text| && out.value.text[..|st.text|] == st.text
    ensures st.index >= |message| ==> out == Some(Spliced(st.text, st.images))
  {
    if st.index < |message| then
      if st.index < 0 then None
      else
        assert (st.text + message[st.index..])[..|st.text|] == st.text;
        Some(Spliced(st.text + message[st.index..], st.images))
    else Some(Spliced(st.text, st.images))
  }

  /** The ranges run from `st` on, then the rest of the message copied. */
  function SpliceFrom(message: string, st: SpliceState, rs: seq<EmoteRange>): Option<Spliced>
  {
    match Run(message, st, rs)
    case None => None
    case Some(out) => Finish(message, out)
  }

  /** The splice of a list of ranges, from the start of the message with nothing written yet. */
  function Splice(message: string, rs: seq<EmoteRange>): (r: Option<Spliced>)
    ensures rs == [] ==> r == Some(Spliced(message, []))
  {
    SpliceFrom(message, Start, rs)
  }

  /** The emote loops of onTwitchChat as a whole: the tag read and spliced; None when either throws. */
  function SpliceTag(emotes: seq<string>, message: string, widths: map<int, nat>): Option<Spliced>
  {
    match ReadTag(emotes, widths)
    case None => None
    case Some(rs) => Splice(message, rs)
  }

  /** Running what a read produced, from a state that may already have thrown. */
  function RunFrom(message: string, st: Option<SpliceState>, read: Option<seq<EmoteRange>>): Option<SpliceState>
  {
    if st.None? || read.None? then None else Run(message, st.value, read.value)
  }

  /** The source's locals after a step: None once an exception was thrown. */
  function Outcome(thrown: bool, index: int, text: string, images: seq<EmoteImage>): Option<SpliceState>
  {
    if thrown then None else Some(SpliceState(index, text, images))
  }

  lemma {:induction false} RunAppend(message: string, st: SpliceState, a: seq<EmoteRange>, b: seq<EmoteRange>)
    ensures Run(message, st, a + b) == RunFrom(message, Run(message, st, a), Some(b))
    decreases a
  {
    if a == [] {
      assert a + b == b;
    } else {
      assert (a + b)[0] == a[0] && (a + b)[1..] == a[1..] + b;
      match Step(message, st, a[0])
      case None =>
      case Some(next) => RunAppend(message, next, a[1..], b);
    }
  }

  /** Running two reads one after the other is running the first, then the second. */
  lemma RunFromConcat(message: string, st: Option<SpliceState>, a: Option<seq<EmoteRange>>, b: Option<seq<EmoteRange>>)
    ensures RunFrom(message, st, Concat(a, b)) == RunFrom(message, RunFrom(message, st, a), b)
  {
    if st.Some? && a.Some? && b.Some? {
      RunAppend(message, st.value, a.value, b.value);
    }
  }

  /** The `sb.append(' ')` loop: `width` spaces appended. */
  method AppendSpaces(sb: string, width: nat) returns (out: string)
    ensures out == sb + Spaces(width)
  {
    out := sb;
    var k := 0;
    while k < width
      invariant 0 <= k <= width
      invariant out == sb + Spaces(k)
    {
      out := out + " ";
      k := k + 1;
    }
  }

  /**
   * The body of the inner loop for one occurrence `start-end` of a known
   * emote (TwitchChatHandler.java:65-78); an occurrence without `-` is
   * skipped, and `thrown` says an exception ended the splice.
   */
  method SpliceOccurrence(message: string, subData: string, id: int, width: nat,
                          index0: int, sb0: string, images0: seq<EmoteImage>)
      returns (thrown: bool, index: int, sb: string, images: seq<EmoteImage>)
    ensures Outcome(thrown, index, sb, images)
         == RunFrom(message, Some(SpliceState(index0, sb0, images0)), ReadPiece(subData, id, width))
  {
    thrown, index, sb, images := false, index0, sb0, images0;
    var dashIdx := IndexOf(subData, '-');
    if dashIdx != -1 {
      var start := ParseInt(subData[..dashIdx]);
      if start.None? {
        thrown := true;
      } else {
        thrown, index, sb, images := SpliceRange(message, start.value, subData[dashIdx + 1..], id, width, index, sb, images);
      }
    }
  }

  /**
   * Lines 68-77 for an occurrence whose start has been read: the text up to
   * the start copied, the end read, the run of spaces appended and the image
   * recorded, and `index` moved past the end.
   */
  method SpliceRange(message: string, start: int, endText: string, id: int, width: nat,
                     index0: int, sb0: string, images0: seq<EmoteImage>)
      returns (thrown: bool, index: int, sb: string, images: seq<EmoteImage>)
    ensures Outcome(thrown, index, sb, images)
         == RunFrom(message, Some(SpliceState(index0, sb0, images0)), ReadEnd(start, endText, id, width))
  {
    thrown, index, sb, images := false, index0, sb0, images0;
    ghost var st := SpliceState(index0, sb0, images0);
    if index < start {
      if index < 0 || start > |message| {
        RunFromThrowingCopy(message, st, ReadEnd(start, endText, id, width), start);
        return true, index, sb, images;
      }
      sb := sb + message[index..start];
    }
    var imageIndex := |sb|;
    var end := ParseInt(endText);
    if end.None? {
      return true, index, sb, images;
    }
    ghost var copied := sb;
    sb := AppendSpaces(sb, width);
    images := images + [EmoteImage(imageIndex, id, width)];
    index := ToInt32(end.value + 1);
    ghost var r := EmoteRange(start, end.value, id, width);
    assert Step(message, st, r) == Some(SpliceState(index, copied + Spaces(width), images));
    RunSingle(message, st, r);
  }

  /** Running one range is taking one step. */
  lemma RunSingle(message: string, st: SpliceState, r: EmoteRange)
    ensures Run(message, st, [r]) == Step(message, st, r)
  {
    assert [r][0] == r && [r][1..] == [];
  }

  /** When the copy up to a range's start throws, running what a piece read to throws too, whatever it read. */
  lemma RunFromThrowingCopy(message: string, st: SpliceState, read: Option<seq<EmoteRange>>, start: int)
    requires CopyThrows(message, st.index, start)
    requires read.Some? ==> |read.value| == 1 && read.value[0].start == start
    ensures RunFrom(message, Some(st), read) == None
  {
    if read.Some? {
      assert read.value == [read.value[0]];
      RunSingle(message, st, read.value[0]);
    }
  }

  /** Running the occurrences from `j` on is running occurrence `j`, then the rest. */
  lemma RunFromNextPiece(message: string, st: Option<SpliceState>, pieces: seq<string>, j: nat, id: int, width: nat)
    requires j < |pieces|
    ensures RunFrom(message, st, ReadPieces(pieces[j..], id, width))
         == RunFrom(message, RunFrom(message, st, ReadPiece(pieces[j], id, width)), ReadPieces(pieces[j + 1..], id, width))
  {
    assert pieces[j..][0] == pieces[j] && pieces[j..][1..] == pieces[j + 1..];
    RunFromConcat(message, st, ReadPiece(pieces[j], id, width), ReadPieces(pieces[j + 1..], id, width));
  }

  /**
   * The inner loop of onTwitchChat over the occurrences of one known emote
   * (TwitchChatHandler.java:63-79), continuing from `index`, `sb` and the
   * images recorded so far.
   */
  method SpliceOccurrences(message: string, occurrences: seq<string>, id: int, width: nat,
                           index0: int, sb0: string, images0: seq<EmoteImage>)
      returns (thrown: bool, index: int, sb: string, images: seq<EmoteImage>)
    ensures Outcome(thrown, index, sb, images)
         == RunFrom(message, Some(SpliceState(index0, sb0, images0)), ReadPieces(occurrences, id, width))
  {
    thrown, index, sb, images := false, index0, sb0, images0;
    ghost var goal := RunFrom(message, Some(SpliceState(index0, sb0, images0)), ReadPieces(occurrences, id, width));
    var j := 0;
    while j < |occurrences| && !thrown
      invariant 0 <= j <= |occurrences|
      invariant RunFrom(message, Outcome(thrown, index, sb, images), ReadPieces(occurrences[j..], id, width)) == goal
    {
      RunFromNextPiece(message, Outcome(thrown, index, sb, images), occurrences, j, id, width);
      thrown, index, sb, images := SpliceOccurrence(message, occurrences[j], id, width, index, sb, images);
      j := j + 1;
    }
    if !thrown {
      assert occurrences[j..] == [];
    }
  }

  /**
   * The body of the outer loop for one emote entry (TwitchChatHandler.java:56-80):
   * entries without `:` and unknown emotes are skipped, an id that does not
   * parse throws.
   */
  method SpliceEntry(message: string, emoteData: string, widths: map<int, nat>,
                     index0: int, sb0: string, images0: seq<EmoteImage>)
      returns (thrown: bool, index: int, sb: string, images: seq<EmoteImage>)
    ensures Outcome(thrown, index, sb, images)
         == RunFrom(message, Some(SpliceState(index0, sb0, images0)), ReadEntry(emoteData, widths))
  {
    thrown, index, sb, images := false, index0, sb0, images0;
    ghost var st := SpliceState(index0, sb0, images0);
    var colonIdx := IndexOf(emoteData, ':');
    if colonIdx == -1 {
      assert ReadEntry(emoteData, widths) == Some([]);
      RunFromNothing(message, st);
      return;
    }
    var emoteId := ParseInt(emoteData[..colonIdx]);
    if emoteId.None? {
      assert ReadEntry(emoteData, widths) == None;
      return true, index, sb, images;
    }
    if emoteId.value !in widths {
      assert ReadEntry(emoteData, widths) == Some([]);
      RunFromNothing(message, st);
      return;
    }
    var occurrences := Split(emoteData[colonIdx + 1..], ',');
    assert ReadEntry(emoteData, widths) == ReadPieces(occurrences, emoteId.value, widths[emoteId.value]);
    thrown, index, sb, images := SpliceOccurrences(message, occurrences, emoteId.value, widths[emoteId.value], index, sb, images);
  }

  /** Running a read of no range changes nothing. */
  lemma RunFromNothing(message: string, st: SpliceState)
    ensures RunFrom(message, Some(st), Some([])) == Some(st)
  {
  }

  /** Running the entries from `i` on is running entry `i`, then the rest. */
  lemma RunFromNextEntry(message: string, st: Option<SpliceState>, emotes: seq<string>, i: nat, widths: map<int, nat>)
    requires i < |emotes|
    ensures RunFrom(message, st, ReadTag(emotes[i..], widths))
         == RunFrom(message, RunFrom(message, st, ReadEntry(emotes[i], widths)), ReadTag(emotes[i + 1..], widths))
  {
    assert emotes[i..][0] == emotes[i] && emotes[i..][1..] == emotes[i + 1..];
    RunFromConcat(message, st, ReadEntry(emotes[i], widths), ReadTag(emotes[i + 1..], widths));
  }

  /**
   * The emote loops of onTwitchChat (TwitchChatHandler.java:52-85): the
   * spliced message and the emote images are exactly those of `SpliceTag`,
   * and `thrown` holds exactly when it is None.
   */
  method SpliceEmotes(emotes: seq<string>, message: string, widths: map<int, nat>)
      returns (thrown: bool, text: string, images: seq<EmoteImage>)
    ensures (if thrown then None else Some(Spliced(text, images))) == SpliceTag(emotes, message, widths)
  {
    var index: int := 0;
    var sb := "";
    images := [];
    thrown := false;
    ghost var goal := RunFrom(message, Some(Start), ReadTag(emotes, widths));
    var i := 0;
    while i < |emotes| && !thrown
      invariant 0 <= i <= |emotes|
      invariant RunFrom(message, Outcome(thrown, index, sb, images), ReadTag(emotes[i..], widths)) == goal
    {
      RunFromNextEntry(message, Outcome(thrown, index, sb, images), emotes, i, widths);
      thrown, index, sb, images := SpliceEntry(message, emotes[i], widths, index, sb, images);
      i := i + 1;
    }
    text := sb;
    if !thrown {
      assert emotes[i..] == [];
      if index < |message| {
        if index < 0 {
          thrown := true;
        } else {
          text := sb + message[index..];
        }
      }
    }
  }

  // ---------------------------------------------------------------------
  // Where the splice throws
  // ---------------------------------------------------------------------

  /** Every number read is a Java `int`, and every start is non-negative: it is read from text before the first `-`. */
  predicate FitInt(rs: seq<EmoteRange>) {
    forall k :: 0 <= k < |rs| ==> 0 <= rs[k].start && IsInt32(rs[k].start) && IsInt32(rs[k].end) && IsInt32(rs[k].id)
  }

  lemma FitIntAppend(a: seq<EmoteRange>, b: seq<EmoteRange>)
    requires FitInt(a) && FitInt(b)
    ensures FitInt(a + b)
  {
    assert forall k :: 0 <= k < |a| ==> (a + b)[k] == a[k];
    assert forall k :: |a| <= k < |a + b| ==> (a + b)[k] == b[k - |a|];
  }

  lemma {:induction false} PiecesFitInt(pieces: seq<string>, id: int, width: nat)
    requires IsInt32(id) && ReadPieces(pieces, id, width).Some?
    ensures FitInt(ReadPieces(pieces, id, width).value)
  {
    if pieces != [] {
      PiecesFitInt(pieces[1..], id, width);
      var p := pieces[0];
      var dash := IndexOf(p, '-');
      assert ReadPiece(p, id, width).Some?;
      assert dash != -1 ==> '-' !in p[..dash];
      FitIntAppend(ReadPiece(p, id, width).value, ReadPieces(pieces[1..], id, width).value);
    }
  }

  /**
   * Whatever a tag reads to consists of Java `int`s, with non-negative
   * starts, so the unbounded arithmetic of the model is the `int` arithmetic
   * of the source (the wrap of `end + 1` is `ToInt32`).
   */
  lemma {:induction false} ReadTagFitsInt(emotes: seq<string>, widths: map<int, nat>)
    requires ReadTag(emotes, widths).Some?
    ensures FitInt(ReadTag(emotes, widths).value)
  {
    if emotes != [] {
      var e := emotes[0];
      var colon := IndexOf(e, ':');
      assert ReadEntry(e, widths).Some?;
      if colon != -1 && ParseInt(e[..colon]).value in widths {
        var id := ParseInt(e[..colon]).value;
        PiecesFitInt(Split(e[colon + 1..], ','), id, widths[id]);
      }
      ReadTagFitsInt(emotes[1..], widths);
      FitIntAppend(ReadEntry(e, widths).value, ReadTag(emotes[1..], widths).value);
    }
  }

  /** An entry whose id `Integer.parseInt` rejects (line 58) makes the splice throw, wherever it stands in the tag. */
  lemma UnparsableIdThrows(emotes: seq<string>, i: nat, message: string, widths: map<int, nat>)
    requires i < |emotes|
    requires IndexOf(emotes[i], ':') != -1 && ParseInt(emotes[i][..IndexOf(emotes[i], ':')]).None?
    ensures ReadTag(emotes, widths) == None && SpliceTag(emotes, message, widths) == None
  {
    assert EntryReader(widths)(emotes[i]).None?;
  }

  /** An occurrence with a `-` and a side of it that `Integer.parseInt` rejects: reading it throws. */
  predicate UnparsablePiece(piece: string)
  {
    var dash := IndexOf(piece, '-');
    dash != -1 && (ParseInt(piece[..dash]).None? || ParseInt(piece[dash + 1..]).None?)
  }

  lemma UnparsablePieceThrows(pieces: seq<string>, k: nat, id: int, width: nat)
    requires k < |pieces| && UnparsablePiece(pieces[k])
    ensures ReadPieces(pieces, id, width) == None
  {
    assert ReadPiece(pieces[k], id, width) == None;
    assert PieceReader(id, width)(pieces[k]).None?;
  }

  /**
   * An occurrence of a known emote with a side of its `-` that
   * `Integer.parseInt` rejects (line 67 or 72) makes the splice throw.
   */
  lemma UnparsableOffsetThrows(emotes: seq<string>, i: nat, k: nat, message: string, widths: map<int, nat>)
    requires i < |emotes|
    requires var colon := IndexOf(emotes[i], ':');
      && colon != -1 && ParseInt(emotes[i][..colon]).Some? && ParseInt(emotes[i][..colon]).value in widths
      && k < |Split(emotes[i][colon + 1..], ',')| && UnparsablePiece(Split(emotes[i][colon + 1..], ',')[k])
    ensures ReadTag(emotes, widths) == None && SpliceTag(emotes, message, widths) == None
  {
    var e := emotes[i];
    var colon := IndexOf(e, ':');
    var id := ParseInt(e[..colon]).value;
    UnparsablePieceThrows(Split(e[colon + 1..], ','), k, id, widths[id]);
    assert ReadEntry(e, widths) == None;
    assert EntryReader(widths)(emotes[i]).None?;
  }

  /** From a negative index the splice throws: the next copy, or the final one, is given that index (line 69 or 83). */
  lemma NegativeIndexThrows(message: string, st: SpliceState, rs: seq<EmoteRange>)
    requires st.index < 0 && FitInt(rs)
    ensures SpliceFrom(message, st, rs) == None
  {
    if rs != [] {
      assert CopyThrows(message, st.index, rs[0].start);
    }
  }

  lemma SpliceFromAppend(message: string, st: SpliceState, a: seq<EmoteRange>, b: seq<EmoteRange>)
    ensures SpliceFrom(message, st, a + b)
         == match Run(message, st, a) case None => None case Some(mid) => SpliceFrom(message, mid, b)
  {
    RunAppend(message, st, a, b);
  }

  /**
   * A range whose end is below -1, or is the largest `int` (so that
   * `end + 1` wraps to the smallest), leaves a negative index behind, and
   * the splice throws; an end of -1 does not, it restarts at index 0.
   */
  lemma NegativeEndSpliceThrows(message: string, rs: seq<EmoteRange>, k: nat)
    requires FitInt(rs) && k < |rs|
    requires rs[k].end < -1 || rs[k].end == IntMax
    ensures Splice(message, rs) == None
  {
    var a, b := rs[..k + 1], rs[k + 1..];
    assert rs == a + b;
    SpliceFromAppend(message, Start, a, b);
    match Run(message, Start, a)
    case None =>
    case Some(mid) =>
      RunExtends(message, Start, a);
      assert a[|a| - 1] == rs[k];
      assert mid.index < 0;
      assert FitInt(b) by {
        forall j | 0 <= j < |b| ensures 0 <= b[j].start {
          assert b[j] == rs[k + 1 + j];
        }
      }
      NegativeIndexThrows(message, mid, b);
  }

  /** The same for a range read from a tag. */
  lemma NegativeEndThrows(emotes: seq<string>, message: string, widths: map<int, nat>, k: nat)
    requires ReadTag(emotes, widths).Some? && k < |ReadTag(emotes, widths).value|
    requires var end := ReadTag(emotes, widths).value[k].end; end < -1 || end == IntMax
    ensures SpliceTag(emotes, message, widths) == None
  {
    ReadTagFitsInt(emotes, widths);
    NegativeEndSpliceThrows(message, ReadTag(emotes, widths).value, k);
  }

  // ---------------------------------------------------------------------
  // Every image marks its run of spaces (whatever the order of the ranges)
  // ---------------------------------------------------------------------

  /** Image `img` lies inside `text` and covers exactly `img.width` spaces there. */
  predicate MarksSpaces(text: string, img: EmoteImage) {
    img.index + img.width <= |text| && text[img.index..img.index + img.width] == Spaces(img.width)
  }

  predicate AllMarkSpaces(text: string, images: seq<EmoteImage>) {
    forall k :: 0 <= k < |images| ==> MarksSpaces(text, images[k])
  }

  lemma AppendKeepsMarks(text: string, more: string, images: seq<EmoteImage>)
    requires AllMarkSpaces(text, images)
    ensures AllMarkSpaces(text + more, images)
  {
    forall k | 0 <= k < |images|
      ensures MarksSpaces(text + more, images[k])
    {
      var img := images[k];
      assert (text + more)[img.index..img.index + img.width] == text[img.index..img.index + img.width];
    }
  }

  /** One step keeps the earlier images over their spaces and marks the new run of spaces. */
  lemma StepShape(message: string, st: SpliceState, r: EmoteRange)
    requires Step(message, st, r).Some?
    requires AllMarkSpaces(st.text, st.images)
    ensures AllMarkSpaces(Step(message, st, r).value.text, Step(message, st, r).value.images)
  {
    var next := Step(message, st, r).value;
    StepExtends(message, st, r);
    AppendKeepsMarks(st.text, next.text[|st.text|..], st.images);
    assert st.text + next.text[|st.text|..] == next.text;
    assert MarksSpaces(next.text, next.images[|st.images|]);
    assert AllMarkSpaces(next.text, next.images) by {
      forall k | 0 <= k < |next.images| ensures MarksSpaces(next.text, next.images[k]) {
        if k < |st.images| { assert next.images[k] == st.images[k]; }
      }
    }
  }

  lemma {:induction false} RunShape(message: string, st: SpliceState, rs: seq<EmoteRange>)
    decreases rs
    requires Run(message, st, rs).Some?
    requires AllMarkSpaces(st.text, st.images)
    ensures |Run(message, st, rs).value.images| == |st.images| + |rs|
    ensures var out := Run(message, st, rs).value;
      && AllMarkSpaces(out.text, out.images)
      && forall k :: 0 <= k < |rs| ==>
           out.images[|st.images| + k].id == rs[k].id && out.images[|st.images| + k].width == rs[k].width
  {
    RunExtends(message, st, rs);
    if rs != [] {
      var r := rs[0];
      var next := Step(message, st, r).value;
      StepShape(message, st, r);
      StepExtends(message, st, r);
      RunShape(message, next, rs[1..]);
      RunExtends(message, next, rs[1..]);
      var out := Run(message, next, rs[1..]).value;
      forall k | 0 <= k < |rs|
        ensures out.images[|st.images| + k].id == rs[k].id && out.images[|st.images| + k].width == rs[k].width
      {
        if k == 0 {
          assert out.images[|st.images|] == out.images[..|next.images|][|st.images|];
        } else {
          assert out.images[|st.images| + k] == out.images[|next.images| + (k - 1)];
        }
      }
    }
  }

  /**
   * However the ranges are ordered, when the splice does not throw there is
   * one emote image per usable occurrence, in visiting order, and each lies
   * inside the output text over a run of exactly its width in spaces.
   */
  lemma SpliceImagesMarkSpaces(message: string, rs: seq<EmoteRange>)
    requires Splice(message, rs).Some?
    ensures var out := Splice(message, rs).value;
      && |out.images| == |rs|
      && AllMarkSpaces(out.text, out.images)
      && forall k :: 0 <= k < |rs| ==> out.images[k].id == rs[k].id && out.images[k].width == rs[k].width
  {
    var st := Run(message, Start, rs).value;
    RunShape(message, Start, rs);
    RunExtends(message, Start, rs);
    assert Splice(message, rs) == Finish(message, st);
    var out := Finish(message, st).value;
    AppendKeepsMarks(st.text, out.text[|st.text|..], st.images);
    assert st.text + out.text[|st.text|..] == out.text;
  }

  // ---------------------------------------------------------------------
  // Ascending, disjoint ranges: the output is the message with each range replaced
  // ---------------------------------------------------------------------

  /** Each range is inside the message and ends before the next one starts. */
  predicate Ordered(rs: seq<EmoteRange>, n: nat) {
    rs != [] ==>
      && 0 <= rs[0].start <= rs[0].end < n
      && (|rs| > 1 ==> rs[0].end < rs[1].start)
      && Ordered(rs[1..], n)
  }

  /**
   * Reference definition: the message from position `from` on, with every
   * range replaced by its emote's run of spaces and the text between ranges
   * kept in order.
   */
  function Replaced(message: string, rs: seq<EmoteRange>, from: nat): string
    requires from <= |message| && Ordered(rs, |message|)
    requires rs != [] ==> from <= rs[0].start
  {
    if rs == [] then message[from..]
    else message[from..rs[0].start] + Spaces(rs[0].width) + Replaced(message, rs[1..], rs[0].end + 1)
  }

  /** How much longer the text has become after the ranges `rs` have been replaced. */
  function Growth(rs: seq<EmoteRange>): int {
    if rs == [] then 0 else rs[0].width - (rs[0].end - rs[0].start + 1) + Growth(rs[1..])
  }

  /** One step over an ordered range from a position at or before its start: no throw, and no wrap of `end + 1`. */
  lemma OrderedStep(message: string, st: SpliceState, rs: seq<EmoteRange>)
    requires |message| <= IntMax
    requires rs != [] && Ordered(rs, |message|) && 0 <= st.index <= rs[0].start
    ensures Step(message, st, rs[0]).Some?
    ensures Step(message, st, rs[0]).value.index == rs[0].end + 1
    ensures Step(message, st, rs[0]).value.text == st.text + message[st.index..rs[0].start] + Spaces(rs[0].width)
  {
    assert IsInt32(rs[0].end + 1);
    assert st.index == rs[0].start ==> message[st.index..rs[0].start] == [];
  }

  /** With no range left, the splice copies the rest of the message. */
  lemma SpliceFromNothing(message: string, st: SpliceState)
    requires 0 <= st.index <= |message|
    ensures SpliceFrom(message, st, []) == Some(Spliced(st.text + message[st.index..], st.images))
  {
    assert st.index == |message| ==> st.text + message[st.index..] == st.text;
  }

  /** A step that does not throw hands the rest of the ranges to the state it leaves. */
  lemma SpliceFromStep(message: string, st: SpliceState, rs: seq<EmoteRange>)
    requires rs != [] && Step(message, st, rs[0]).Some?
    ensures SpliceFrom(message, st, rs) == SpliceFrom(message, Step(message, st, rs[0]).value, rs[1..])
  {
  }

  lemma {:induction false} RunOrdered(message: string, st: SpliceState, rs: seq<EmoteRange>)
    decreases rs
    requires |message| <= IntMax
    requires 0 <= st.index <= |message| && Ordered(rs, |message|)
    requires rs != [] ==> st.index <= rs[0].start
    ensures SpliceFrom(message, st, rs).Some?
    ensures SpliceFrom(message, st, rs).value.text == st.text + Replaced(message, rs, st.index)
  {
    if rs == [] {
      SpliceFromNothing(message, st);
    } else {
      OrderedStep(message, st, rs);
      var next := Step(message, st, rs[0]).value;
      SpliceFromStep(message, st, rs);
      RunOrdered(message, next, rs[1..]);
      var mid := message[st.index..rs[0].start] + Spaces(rs[0].width);
      var rest := Replaced(message, rs[1..], rs[0].end + 1);
      assert Replaced(message, rs, st.index) == mid + rest;
      assert (st.text + mid) + rest == st.text + (mid + rest);
    }
  }

  lemma {:induction false} RunImagesOrdered(message: string, st: SpliceState, rs: seq<EmoteRange>)
    decreases rs
    requires |message| <= IntMax
    requires 0 <= st.index <= |message| && Ordered(rs, |message|)
    requires rs != [] ==> st.index <= rs[0].start
    ensures Run(message, st, rs).Some?
    ensures |Run(message, st, rs).value.images| == |st.images| + |rs|
    ensures var out := Run(message, st, rs).value;
      forall k :: 0 <= k < |rs| ==>
        out.images[|st.images| + k].index == rs[k].start + (|st.text| - st.index) + Growth(rs[..k])
  {
    if rs != [] {
      var r := rs[0];
      OrderedStep(message, st, rs);
      StepExtends(message, st, r);
      var next := Step(message, st, r).value;
      assert |next.text| - next.index == (|st.text| - st.index) + (r.width - (r.end - r.start + 1));
      assert next.images[|st.images|].index == r.start + (|st.text| - st.index);
      RunImagesOrdered(message, next, rs[1..]);
      var out := Run(message, next, rs[1..]).value;
      assert Run(message, st, rs) == Some(out);
      RunExtends(message, next, rs[1..]);
      forall k | 0 <= k < |rs|
        ensures out.images[|st.images| + k].index == rs[k].start + (|st.text| - st.index) + Growth(rs[..k])
      {
        if k == 0 {
          assert out.images[|st.images|] == out.images[..|next.images|][|st.images|];
        } else {
          assert rs[..k][1..] == rs[1..][..k - 1];
          assert out.images[|st.images| + k] == out.images[|next.images| + (k - 1)];
        }
      }
    }
  }

  /**
   * For ascending, disjoint ranges inside a message (whose length, as that of
   * every Java string, fits an `int`): the splice does not throw, the output
   * is the message with each range [start, end] replaced by exactly `width`
   * spaces, and the k-th image starts where the k-th range started, moved by
   * the growth of the text from the earlier replacements.
   */
  lemma SpliceOrdered(message: string, rs: seq<EmoteRange>)
    requires |message| <= IntMax && Ordered(rs, |message|)
    ensures Splice(message, rs).Some?
    ensures Splice(message, rs).value.text == Replaced(message, rs, 0)
    ensures |Splice(message, rs).value.images| == |rs|
    ensures forall k :: 0 <= k < |rs| ==> Splice(message, rs).value.images[k].index == rs[k].start + Growth(rs[..k])
  {
    RunOrdered(message, Start, rs);
    RunImagesOrdered(message, Start, rs);
  }

  // ---------------------------------------------------------------------
  // Skipped entries
  // ---------------------------------------------------------------------

  /**
   * An entry that contributes nothing and throws nothing: it has no `:`, or
   * its id parses and names an unknown emote or one with no occurrence with a `-`.
   */
  predicate Unusable(entry: string, widths: map<int, nat>)
  {
    var colon := IndexOf(entry, ':');
    colon == -1 ||
    (ParseInt(entry[..colon]).Some? &&
     (ParseInt(entry[..colon]).value !in widths ||
      (var pieces := Split(entry[colon + 1..], ',');
       forall k :: 0 <= k < |pieces| ==> '-' !in pieces[k])))
  }

  lemma {:induction false} DashlessPiecesGiveNothing(pieces: seq<string>, id: int, width: nat)
    requires forall k :: 0 <= k < |pieces| ==> '-' !in pieces[k]
    ensures ReadPieces(pieces, id, width) == Some([])
  {
    if pieces != [] {
      DashlessPiecesGiveNothing(pieces[1..], id, width);
      assert PieceReader(id, width)(pieces[0]) == Some([]);
      var none: seq<EmoteRange> := [];
      assert ReadPieces(pieces, id, width) == Concat(Some(none), Some(none));
      assert none + none == none;
    }
  }

  /** An unusable entry reads to no range. */
  lemma UnusableEntryGivesNothing(e: string, widths: map<int, nat>)
    requires Unusable(e, widths)
    ensures ReadEntry(e, widths) == Some([])
  {
    var colon := IndexOf(e, ':');
    if colon != -1 && ParseInt(e[..colon]).value in widths {
      var id := ParseInt(e[..colon]).value;
      DashlessPiecesGiveNothing(Split(e[colon + 1..], ','), id, widths[id]);
    }
  }

  lemma {:induction false} UnusableEntriesGiveNoRanges(emotes: seq<string>, widths: map<int, nat>)
    requires forall k :: 0 <= k < |emotes| ==> Unusable(emotes[k], widths)
    ensures ReadTag(emotes, widths) == Some([])
  {
    if emotes != [] {
      UnusableEntryGivesNothing(emotes[0], widths);
      assert EntryReader(widths)(emotes[0]) == Some([]);
      assert forall k :: 0 <= k < |emotes[1..]| ==> emotes[1..][k] == emotes[k + 1];
      UnusableEntriesGiveNoRanges(emotes[1..], widths);
      var none: seq<EmoteRange> := [];
      assert ReadTag(emotes, widths) == Concat(Some(none), Some(none));
      assert none + none == none;
    }
  }

  /** With no usable emote entry the message comes out unchanged and no image is recorded. */
  lemma NoUsableEmotesKeepMessage(emotes: seq<string>, message: string, widths: map<int, nat>)
    requires forall k :: 0 <= k < |emotes| ==> Unusable(emotes[k], widths)
    ensures SpliceTag(emotes, message, widths) == Some(Spliced(message, []))
  {
    UnusableEntriesGiveNoRanges(emotes, widths);
    assert message[0..] == message;
  }

  lemma ReadTagAppend(a: seq<string>, b: seq<string>, widths: map<int, nat>)
    ensures ReadTag(a + b, widths) == Concat(ReadTag(a, widths), ReadTag(b, widths))
  {
    CollectAppend(EntryReader(widths), a, b);
  }

  /** Dropping an unusable entry from the tag changes neither what it reads to nor whether it throws. */
  lemma SkippedEntryChangesNothing(emotes: seq<string>, i: nat, widths: map<int, nat>)
    requires i < |emotes|
    requires Unusable(emotes[i], widths)
    ensures ReadTag(emotes[..i] + emotes[i + 1..], widths) == ReadTag(emotes, widths)
  {
    var pre, e, post := emotes[..i], emotes[i], emotes[i + 1..];
    assert emotes == (pre + [e]) + post;
    UnusableEntriesGiveNoRanges([e], widths);
    ReadTagAppend(pre + [e], post, widths);
    ReadTagAppend(pre, [e], widths);
    ReadTagAppend(pre, post, widths);
    if ReadTag(pre, widths).Some? {
      assert ReadTag(pre, widths).value + [] == ReadTag(pre, widths).value;
    }
    assert ReadTag(pre + [e], widths) == ReadTag(pre, widths);
  }

  // ---------------------------------------------------------------------
  // What parseInt accepts: signs and other scripts' digits
  // ---------------------------------------------------------------------

  /** An entry `id:occurrences`, with no `:` in `id`, reads through `Integer.parseInt(id)`. */
  lemma ReadEntryParts(id: string, occurrences: string, widths: map<int, nat>)
    requires ':' !in id
    ensures var v := ParseInt(id);
      ReadEntry(id + [':'] + occurrences, widths)
      == if v.None? then None
         else if v.value !in widths then Some([])
         else ReadPieces(Split(occurrences, ','), v.value, widths[v.value])
  {
    var e := id + [':'] + occurrences;
    assert e[|id|] == ':' && e[..|id|] == id && e[|id| + 1..] == occurrences;
    assert IndexOf(e, ':') == |id|;
  }

  /** An occurrence `start-end`, with no `-` in `start`, reads through `Integer.parseInt` on both sides. */
  lemma ReadPieceParts(start: string, end: string, id: int, width: nat)
    requires '-' !in start
    ensures var a, b := ParseInt(start), ParseInt(end);
      ReadPiece(start + ['-'] + end, id, width)
      == if a.Some? && b.Some? then Some([EmoteRange(a.value, b.value, id, width)]) else None
  {
    var p := start + ['-'] + end;
    assert p[|start|] == '-' && p[..|start|] == start && p[|start| + 1..] == end;
    assert IndexOf(p, '-') == |start|;
  }

  /** One entry reads as what the tag reads. */
  lemma ReadTagSingle(e: string, widths: map<int, nat>)
    ensures ReadTag([e], widths) == ReadEntry(e, widths)
  {
    assert [e][1..] == [];
    assert ReadTag([], widths) == Some([]);
    var x := ReadEntry(e, widths);
    assert EntryReader(widths)(e) == x;
    assert x.Some? ==> x.value + [] == x.value;
  }

  /** One occurrence reads as the piece it is. */
  lemma ReadPiecesSingle(p: string, id: int, width: nat)
    ensures ReadPieces([p], id, width) == ReadPiece(p, id, width)
  {
    assert [p][1..] == [];
    assert ReadPieces([], id, width) == Some([]);
    var x := ReadPiece(p, id, width);
    assert PieceReader(id, width)(p) == x;
    assert x.Some? ==> x.value + [] == x.value;
  }

  /** A tag of one entry with one occurrence reads to its one range. */
  lemma ReadSingle(id: string, start: string, end: string, widths: map<int, nat>, v: int, a: int, b: int)
    requires ':' !in id && '-' !in start && ',' !in start && ',' !in end
    requires ParseInt(id) == Some(v) && v in widths && ParseInt(start) == Some(a) && ParseInt(end) == Some(b)
    ensures ReadTag([id + [':'] + start + ['-'] + end], widths) == Some([EmoteRange(a, b, v, widths[v])])
  {
    var occ := start + ['-'] + end;
    assert id + [':'] + start + ['-'] + end == id + [':'] + occ;
    ReadTagSingle(id + [':'] + occ, widths);
    ReadEntryParts(id, occ, widths);
    assert IndexOf(occ, ',') == -1;
    assert Split(occ, ',') == [occ];
    ReadPiecesSingle(occ, v, widths[v]);
    ReadPieceParts(start, end, v, widths[v]);
  }

  /** `+25:+0-+4` reads as emote 25 at 0..4, as `Integer.parseInt` accepts a leading `+`. */
  lemma SignedTagReads(width: nat)
    ensures ReadTag(["+25:+0-+4"], map[25 := width]) == Some([EmoteRange(0, 4, 25, width)])
  {
    ParseIntPlus("25");
    ParseIntPlus("0");
    ParseIntPlus("4");
    assert ParseInt("25") == Some(25) by {
      assert "25"[..1] == "2";
    }
    assert "+" + "25" == "+25" && "+" + "0" == "+0" && "+" + "4" == "+4";
    assert "+25" + [':'] + "+0" + ['-'] + "+4" == "+25:+0-+4";
    ReadSingle("+25", "+0", "+4", map[25 := width], 25, 0, 4);
  }

  /** `٢٥:0-4`, the id in Arabic-Indic digits, reads as emote 25 too. */
  lemma ArabicIndicIdReads(width: nat)
    ensures ReadTag(["٢٥:0-4"], map[25 := width]) == Some([EmoteRange(0, 4, 25, width)])
  {
    assert ParseInt("٢٥") == Some(25) by {
      assert JavaDigit('٢') == 2 && JavaDigit('٥') == 5;
      assert "٢٥"[..1] == "٢";
    }
    assert "٢٥" + [':'] + "0" + ['-'] + "4" == "٢٥:0-4";
    ReadSingle("٢٥", "0", "4", map[25 := width], 25, 0, 4);
  }
}
