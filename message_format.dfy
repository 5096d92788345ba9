/**
 * TwitchChatHandler.formatComponent: a format string such as
 * `[%c] %u: %m` is cut into literal parts and the placeholders `%c`
 * (channel), `%u` (badge spaces, colour marker and display name) and `%m`
 * (the spliced message); the parts are appended in order, and at `%u` and
 * `%m` the badge and emote image positions are moved right by the length of
 * the text built so far.
 *
 * The text of the Minecraft text component is modelled as a plain string;
 * its length stands for `root.getFormattedText().length()`.
 */
module MessageFormat {
  import opened Strings

  // ---------------------------------------------------------------------
  // Cutting the format (format.split around %[ucm])
  // ---------------------------------------------------------------------

  predicate PlaceholderChar(c: char) {
    c == 'c' || c == 'u' || c == 'm'
  }

  /** A placeholder `%c`, `%u` or `%m` begins at position `i` of `f`. */
  predicate PlaceholderAt(f: string, i: nat) {
    i + 1 < |f| && f[i] == '%' && PlaceholderChar(f[i + 1])
  }

  predicate IsPlaceholder(part: string) {
    |part| == 2 && PlaceholderAt(part, 0)
  }

  predicate NoPlaceholder(s: string) {
    forall i :: 0 <= i < |s| ==> !PlaceholderAt(s, i)
  }

  function Concat(parts: seq<string>): string {
    if parts == [] then "" else parts[0] + Concat(parts[1..])
  }

  /** Where the literal part starting at `i` ends: at the next placeholder, or at the end of `f`. */
  function LiteralEnd(f: string, i: nat): (j: nat)
    requires i < |f|
    ensures i < j <= |f|
    ensures forall k :: i < k < j ==> !PlaceholderAt(f, k)
    ensures j < |f| ==> PlaceholderAt(f, j)
    decreases |f| - i
  {
    if i + 1 == |f| || PlaceholderAt(f, i + 1) then i + 1 else LiteralEnd(f, i + 1)
  }

  lemma LiteralHasNoPlaceholder(f: string, j: nat)
    requires 0 < j <= |f| && !PlaceholderAt(f, 0)
    requires forall k :: 0 < k < j ==> !PlaceholderAt(f, k)
    ensures NoPlaceholder(f[..j])
  {
    forall i | 0 <= i < j ensures !PlaceholderAt(f[..j], i) {
      assert i == 0 || !PlaceholderAt(f, i);
    }
  }

  /**
   * The parts of a format: each placeholder is a part of its own, and the
   * text between placeholders forms maximal literal parts. The parts join
   * back to the format, none is empty, and no two literals are adjacent.
   */
  function Tokenize(f: string): (parts: seq<string>)
    ensures Concat(parts) == f
    ensures forall k :: 0 <= k < |parts| ==> |parts[k]| > 0
    ensures forall k :: 0 <= k < |parts| ==> IsPlaceholder(parts[k]) || NoPlaceholder(parts[k])
    ensures forall k :: 0 <= k < |parts| - 1 ==> IsPlaceholder(parts[k]) || IsPlaceholder(parts[k + 1])
    decreases |f|
  {
    if f == [] then []
    else if PlaceholderAt(f, 0) then
      var rest := Tokenize(f[2..]);
      assert f == f[..2] + f[2..];
      assert ([f[..2]] + rest)[1..] == rest;
      [f[..2]] + rest
    else
      var j := LiteralEnd(f, 0);
      var rest := Tokenize(f[j..]);
      assert f == f[..j] + f[j..];
      assert ([f[..j]] + rest)[1..] == rest;
      LiteralHasNoPlaceholder(f, j);
      assert rest != [] ==> rest[0] == f[j..][..2];
      [f[..j]] + rest
  }

  /** A format without any placeholder, not starting with `%`, is a single literal part. */
  lemma PlainFormatIsOnePart(f: string)
    requires f != [] && f[0] != '%' && NoPlaceholder(f)
    ensures Tokenize(f) == [f]
  {
    assert LiteralEnd(f, 0) == |f|;
    assert f[..|f|] == f && f[|f|..] == [];
    assert Tokenize(f) == [f[..|f|]] + Tokenize(f[|f|..]);
  }

  // ---------------------------------------------------------------------
  // Expanding the parts (the loop of formatComponent)
  // ---------------------------------------------------------------------

  /** What `%c`, `%u` and `%m` stand for; `rgbMarker` is BetterMinecraftChatAPI.TEXT_FORMATTING_RGB. */
  datatype FormatArgs = FormatArgs(channel: string, displayName: string, message: string,
                                   badgeOffset: nat, rgbMarker: string)

  /** The text of `%u`: one space per badge space, the colour marker, the display name. */
  function UserText(args: FormatArgs): string {
    Spaces(args.badgeOffset) + args.rgbMarker + args.displayName
  }

  /** The text so far and how far the badge and emote images have been moved. */
  datatype Expansion = Expansion(text: string, badgeShift: nat, emoteShift: nat)

  /** A part formatComponent can handle: `charAt(0)`, and `charAt(1)` after a `%`, exist. */
  predicate Handled(part: string) {
    |part| > 0 && (part[0] == '%' ==> |part| >= 2)
  }

  predicate AllHandled(parts: seq<string>) {
    forall k :: 0 <= k < |parts| ==> Handled(parts[k])
  }

  /** The formats formatComponent accepts: `"".split` gives one empty part, and a lone `%` part has no `charAt(1)`. */
  predicate FormatHandled(format: string) {
    |format| > 0 && AllHandled(Tokenize(format))
  }

  predicate IsUserPart(part: string) {
    |part| >= 2 && part[0] == '%' && part[1] == 'u'
  }

  predicate IsMessagePart(part: string) {
    |part| >= 2 && part[0] == '%' && part[1] == 'm'
  }

  /** One iteration of the loop over the parts (TwitchChatHandler.java:197-225). */
  function ExpandPart(e: Expansion, part: string, args: FormatArgs): Expansion
    requires Handled(part)
  {
    if part[0] == '%' then
      if part[1] == 'c' then e.(text := e.text + args.channel)
      else if part[1] == 'u' then Expansion(e.text + UserText(args), e.badgeShift + |e.text|, e.emoteShift)
      else if part[1] == 'm' then Expansion(e.text + args.message, e.badgeShift, e.emoteShift + |e.text|)
      else e
    else e.(text := e.text + part)
  }

  /** One part only appends to the text, and moves the badges (emotes) by the text so far exactly at `%u` (`%m`). */
  lemma ExpandPartExtends(e: Expansion, part: string, args: FormatArgs)
    requires Handled(part)
    ensures var x := ExpandPart(e, part, args);
      && |e.text| <= |x.text| && x.text[..|e.text|] == e.text
      && x.badgeShift == e.badgeShift + (if IsUserPart(part) then |e.text| else 0)
      && x.emoteShift == e.emoteShift + (if IsMessagePart(part) then |e.text| else 0)
  {
  }

  function ExpandFrom(e: Expansion, parts: seq<string>, args: FormatArgs): Expansion
    requires AllHandled(parts)
    decreases parts
  {
    if parts == [] then e else ExpandFrom(ExpandPart(e, parts[0], args), parts[1..], args)
  }

  const Empty := Expansion("", 0, 0)

  function Expand(parts: seq<string>, args: FormatArgs): Expansion
    requires AllHandled(parts)
  {
    ExpandFrom(Empty, parts, args)
  }

  lemma {:induction false} ExpandAppend(e: Expansion, a: seq<string>, b: seq<string>, args: FormatArgs)
    requires AllHandled(a + b)
    ensures AllHandled(a) && AllHandled(b)
    ensures ExpandFrom(e, a + b, args) == ExpandFrom(ExpandFrom(e, a, args), b, args)
    decreases a
  {
    assert forall k :: 0 <= k < |a| ==> (a + b)[k] == a[k];
    assert forall k :: 0 <= k < |b| ==> (a + b)[|a| + k] == b[k];
    if a == [] {
      assert a + b == b;
    } else {
      assert (a + b)[0] == a[0] && (a + b)[1..] == a[1..] + b;
      ExpandAppend(ExpandPart(e, a[0], args), a[1..], b, args);
    }
  }

  // ---------------------------------------------------------------------
  // The text: literal parts in order, with the placeholders substituted
  // ---------------------------------------------------------------------

  /** Reference definition of what one part becomes in the output text. */
  function Substitute(part: string, args: FormatArgs): string {
    if part == "%c" then args.channel
    else if part == "%u" then UserText(args)
    else if part == "%m" then args.message
    else part
  }

  function Rendered(parts: seq<string>, args: FormatArgs): string {
    if parts == [] then "" else Substitute(parts[0], args) + Rendered(parts[1..], args)
  }

  /** No part is a literal that begins with `%`. */
  predicate NoPercentLiteral(parts: seq<string>) {
    forall k :: 0 <= k < |parts| ==> |parts[k]| > 0 && (parts[k][0] == '%' ==> IsPlaceholder(parts[k]))
  }

  lemma {:induction false} ExpandFromRenders(e: Expansion, parts: seq<string>, args: FormatArgs)
    requires NoPercentLiteral(parts)
    ensures AllHandled(parts)
    ensures ExpandFrom(e, parts, args).text == e.text + Rendered(parts, args)
    decreases parts
  {
    if parts != [] {
      var p := parts[0];
      assert p[0] == '%' ==> p == "%" + [p[1]];
      assert NoPercentLiteral(parts[1..]);
      ExpandFromRenders(ExpandPart(e, p, args), parts[1..], args);
    }
  }

  /**
   * When no literal part begins with `%`, the output text is the parts in
   * order, each literal kept and each placeholder replaced by what it stands for.
   */
  lemma ExpandRenders(parts: seq<string>, args: FormatArgs)
    requires NoPercentLiteral(parts)
    ensures AllHandled(parts)
    ensures Expand(parts, args).text == Rendered(parts, args)
  {
    ExpandFromRenders(Empty, parts, args);
  }

  /** A format with no placeholder comes out as itself. */
  lemma PlainFormatUnchanged(format: string, args: FormatArgs)
    requires format != [] && format[0] != '%' && NoPlaceholder(format)
    ensures FormatHandled(format)
    ensures Expand(Tokenize(format), args) == Expansion(format, 0, 0)
  {
    PlainFormatIsOnePart(format);
    assert [format][1..] == [];
    assert ExpandPart(Empty, format, args) == Expansion(format, 0, 0) by {
      assert "" + format == format;
    }
    assert Expand([format], args) == ExpandFrom(Expansion(format, 0, 0), [], args);
  }

  /** A literal part that begins with `%` falls through the `switch`: dropping it changes nothing. */
  lemma PercentLiteralIgnored(parts: seq<string>, k: nat, args: FormatArgs)
    requires AllHandled(parts) && k < |parts|
    requires parts[k][0] == '%' && !PlaceholderChar(parts[k][1])
    ensures AllHandled(parts[..k] + parts[k + 1..])
    ensures Expand(parts[..k] + parts[k + 1..], args) == Expand(parts, args)
  {
    assert parts == parts[..k] + ([parts[k]] + parts[k + 1..]);
    ExpandAppend(Empty, parts[..k], [parts[k]] + parts[k + 1..], args);
    var mid := ExpandFrom(Empty, parts[..k], args);
    assert ([parts[k]] + parts[k + 1..])[1..] == parts[k + 1..];
    assert ExpandFrom(mid, [parts[k]] + parts[k + 1..], args) == ExpandFrom(mid, parts[k + 1..], args);
    assert AllHandled(parts[..k] + parts[k + 1..]) by {
      assert forall j :: 0 <= j < k ==> (parts[..k] + parts[k + 1..])[j] == parts[j];
      var q := parts[..k] + parts[k + 1..];
      assert forall j :: k < j < |parts| ==> q[j - 1] == parts[j];
    }
    ExpandAppend(Empty, parts[..k], parts[k + 1..], args);
  }

  // ---------------------------------------------------------------------
  // Where the badge and emote images end up
  // ---------------------------------------------------------------------

  /** Later parts only append text; without `%u` (`%m`) they do not move badges (emotes). */
  lemma {:induction false} ExpandFromExtends(e: Expansion, parts: seq<string>, args: FormatArgs)
    requires AllHandled(parts)
    ensures var out := ExpandFrom(e, parts, args);
      && |e.text| <= |out.text| && out.text[..|e.text|] == e.text
      && ((forall k :: 0 <= k < |parts| ==> !IsUserPart(parts[k])) ==> out.badgeShift == e.badgeShift)
      && ((forall k :: 0 <= k < |parts| ==> !IsMessagePart(parts[k])) ==> out.emoteShift == e.emoteShift)
    decreases parts
  {
    if parts != [] {
      var next := ExpandPart(e, parts[0], args);
      ExpandFromExtends(next, parts[1..], args);
      var out := ExpandFrom(next, parts[1..], args);
      assert out.text[..|e.text|] == out.text[..|next.text|][..|e.text|];
    }
  }

  /** The one part at `k` is `%u` (or `%m` when `user` is false), and no other part is. */
  predicate OnlyAt(parts: seq<string>, k: nat, user: bool) {
    && k < |parts|
    && Marks(parts[k], user)
    && forall j :: 0 <= j < |parts| && j != k ==> !Marks(parts[j], user)
  }

  /** The part is `%u` (`%m` when `user` is false). */
  predicate Marks(part: string, user: bool) {
    if user then IsUserPart(part) else IsMessagePart(part)
  }

  /** The parts on either side of the only `%u` (`%m`) hold none. */
  lemma OnlyAtSides(parts: seq<string>, k: nat, user: bool)
    requires OnlyAt(parts, k, user)
    ensures forall j :: 0 <= j < |parts[..k]| ==> !Marks(parts[..k][j], user)
    ensures var after := parts[k + 1..]; forall j :: 0 <= j < |after| ==> !Marks(after[j], user)
  {
    assert forall j :: 0 <= j < k ==> parts[..k][j] == parts[j];
    var after := parts[k + 1..];
    assert forall j :: 0 <= j < |after| ==> after[j] == parts[k + 1 + j];
  }

  /** A text that starts with `pre + x` holds `x` right after `pre`. */
  lemma SlotOf(pre: string, x: string, out: string)
    requires |pre + x| <= |out| && out[..|pre + x|] == pre + x
    ensures out[|pre|..|pre| + |x|] == x
  {
    assert out[|pre|..|pre| + |x|] == out[..|pre + x|][|pre|..];
  }

  lemma SplitAt(parts: seq<string>, k: nat, args: FormatArgs)
    requires AllHandled(parts) && k < |parts|
    ensures AllHandled(parts[..k]) && AllHandled(parts[k + 1..])
    ensures Expand(parts, args)
         == ExpandFrom(ExpandPart(Expand(parts[..k], args), parts[k], args), parts[k + 1..], args)
  {
    assert parts == parts[..k] + ([parts[k]] + parts[k + 1..]);
    ExpandAppend(Empty, parts[..k], [parts[k]] + parts[k + 1..], args);
    assert ([parts[k]] + parts[k + 1..])[0] == parts[k];
    assert ([parts[k]] + parts[k + 1..])[1..] == parts[k + 1..];
  }

  /**
   * With exactly one `%u`, at part `k`: the badges are moved by the length
   * of the text built before it, and the output holds the user text, whose
   * first `badgeOffset` characters are the badge spaces, at that position.
   */
  lemma UserPlacement(parts: seq<string>, k: nat, args: FormatArgs)
    requires AllHandled(parts) && OnlyAt(parts, k, true)
    ensures AllHandled(parts[..k])
    ensures var out := Expand(parts, args);
      && out.badgeShift == |Expand(parts[..k], args).text|
      && out.badgeShift + |UserText(args)| <= |out.text|
      && out.text[out.badgeShift..out.badgeShift + |UserText(args)|] == UserText(args)
  {
    SplitAt(parts, k, args);
    var before := Expand(parts[..k], args);
    OnlyAtSides(parts, k, true);
    ExpandFromExtends(Empty, parts[..k], args);
    var at := ExpandPart(before, parts[k], args);
    assert at.badgeShift == |before.text| && at.text == before.text + UserText(args);
    ExpandFromExtends(at, parts[k + 1..], args);
    var out := ExpandFrom(at, parts[k + 1..], args);
    SlotOf(before.text, UserText(args), out.text);
  }

  /**
   * With exactly one `%m`, at part `k`: the emotes are moved by the length
   * of the text built before it, and the output holds the spliced message at
   * that position.
   */
  lemma MessagePlacement(parts: seq<string>, k: nat, args: FormatArgs)
    requires AllHandled(parts) && OnlyAt(parts, k, false)
    ensures AllHandled(parts[..k])
    ensures var out := Expand(parts, args);
      && out.emoteShift == |Expand(parts[..k], args).text|
      && out.emoteShift + |args.message| <= |out.text|
      && out.text[out.emoteShift..out.emoteShift + |args.message|] == args.message
  {
    SplitAt(parts, k, args);
    var before := Expand(parts[..k], args);
    OnlyAtSides(parts, k, false);
    ExpandFromExtends(Empty, parts[..k], args);
    var at := ExpandPart(before, parts[k], args);
    assert at.emoteShift == |before.text| && at.text == before.text + args.message;
    ExpandFromExtends(at, parts[k + 1..], args);
    var out := ExpandFrom(at, parts[k + 1..], args);
    SlotOf(before.text, args.message, out.text);
  }
}
