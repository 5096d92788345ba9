/**
 * TwitchChatHandler: turns a Twitch chat message into a chat line (emote
 * splice, badge row, format, name colour), keeps a log of the lines posted
 * per user, and hides, strikes through or replaces those lines on a timeout
 * or a chat clear.
 *
 * The chat that BetterMinecraftChatAPI keeps is modelled inside the handler:
 * `lines` holds every chat line created so far, by id, and `shown` the ids
 * still displayed. `addChatLine` gives out the ids `nextId`, `nextId + 1`, ...
 */
module TwitchChat {
  import opened Strings
  import opened Options
  import opened EmoteSplice
  import opened Badges
  import opened MessageFormat

  // ---------------------------------------------------------------------
  // Values
  // ---------------------------------------------------------------------

  /** What the twitch connection reports about the author of a message. */
  datatype TwitchUser = TwitchUser(nick: string, displayName: string, emotes: seq<string>,
                                   badges: seq<string>, color: Option<int>)

  /** The tables onTwitchChat consults: emote widths by id, badge widths, and the RGB formatting marker. */
  datatype TwitchData = TwitchData(emoteWidths: map<int, nat>, badges: BadgeLookups, rgbMarker: string)

  /** The four formats of TwitchIntegration. */
  datatype Formats = Formats(singleMessage: string, multiMessage: string, singleEmote: string, multiEmote: string)

  datatype ImageSource = Emote(id: int) | Badge(name: string)

  /** An IChatImage: its position in the line text, its width in spaces and what it shows. */
  datatype ChatImage = ChatImage(index: nat, spaces: nat, source: ImageSource)

  /** A text component: its text and the style flags the handler sets. */
  datatype Component = Component(text: string, strikethrough: bool, italic: bool, gray: bool)

  datatype Rgb = Rgb(red: int, green: int, blue: int)

  /** An IChatMessage. */
  datatype ChatLine = ChatLine(component: Component, managed: bool, images: seq<ChatImage>, color: Rgb)

  /** The TwitchChannel setting for deleted messages. */
  datatype DeletedMessages = Hide | Strikethrough | Replace

  function Plain(text: string): Component {
    Component(text, false, false, false)
  }

  function EmoteImages(images: seq<EmoteImage>): seq<ChatImage> {
    seq(|images|, k requires 0 <= k < |images| => ChatImage(images[k].index, images[k].width, Emote(images[k].id)))
  }

  function BadgeImages(images: seq<BadgeImage>): seq<ChatImage> {
    seq(|images|, k requires 0 <= k < |images| => ChatImage(images[k].index, images[k].spaces, Badge(images[k].name)))
  }

  /** The images, each moved `d` characters to the right. */
  function Shifted(images: seq<ChatImage>, d: nat): seq<ChatImage> {
    seq(|images|, k requires 0 <= k < |images| => images[k].(index := images[k].index + d))
  }

  lemma ShiftedTwice(images: seq<ChatImage>, a: nat, b: nat)
    ensures Shifted(Shifted(images, a), b) == Shifted(images, a + b)
  {
  }

  // ---------------------------------------------------------------------
  // The name colour
  // ---------------------------------------------------------------------

  /**
   * The colour added to the line: the red, green and blue bytes of
   * `colorFromHex(user.getColor())` (`c >> 16`, `c >> 8 & 255`, `c & 255`;
   * an arithmetic shift is a floor division), or grey when the user has none.
   */
  function NameColor(color: Option<int>): (rgb: Rgb)
    requires color.Some? ==> IsInt32(color.value)
    ensures 0 <= rgb.green < 256 && 0 <= rgb.blue < 256 && -0x8000 <= rgb.red < 0x8000
    ensures color.None? ==> rgb == Rgb(128, 128, 128)
  {
    match color
    case None => Rgb(128, 128, 128)
    case Some(c) => Rgb(c / 0x1_0000, (c / 0x100) % 0x100, c % 0x100)
  }

  /** A 24-bit colour is split into three bytes that put it back together. */
  lemma NameColorRoundTrip(c: int)
    requires 0 <= c < 0x100_0000
    ensures var rgb := NameColor(Some(c));
      && 0 <= rgb.red < 256
      && rgb.red * 0x1_0000 + rgb.green * 0x100 + rgb.blue == c
  {
    var rgb := NameColor(Some(c));
    assert c / 0x100 == rgb.red * 0x100 + rgb.green;
    assert c == (c / 0x100) * 0x100 + rgb.blue;
  }

  // ---------------------------------------------------------------------
  // The composed line (reference definition of onTwitchChat)
  // ---------------------------------------------------------------------

  /**
   * What onTwitchChat demands of its inputs once the emote loops are through:
   * a format formatComponent can expand (non-empty, no lone `%`), a channel
   * name to take the subscriber badge from, and a colour that fits an `int`.
   * A throw in the emote loops is not excluded here: it is an outcome.
   */
  predicate Composable(format: string, channel: string, user: TwitchUser, data: TwitchData) {
    && FormatHandled(format)
    && ChannelFitsBadges(user.badges, channel)
    && (user.color.Some? ==> IsInt32(user.color.value))
  }

  function Arguments(channel: string, user: TwitchUser, spliced: Spliced, data: TwitchData): FormatArgs {
    var row := Place([], 0, user.badges, channel, data.badges);
    FormatArgs(channel, user.displayName, spliced.text, row.end, data.rgbMarker)
  }

  /**
   * The line of a spliced message: the formatted text, the badge images moved
   * to where `%u` put the badge spaces, then the emote images moved to where
   * `%m` put the spliced message, and the name colour.
   */
  function Line(format: string, channel: string, user: TwitchUser, spliced: Spliced, data: TwitchData): ChatLine
    requires Composable(format, channel, user, data)
  {
    var row := Place([], 0, user.badges, channel, data.badges);
    var x := Expand(Tokenize(format), Arguments(channel, user, spliced, data));
    ChatLine(Plain(x.text), true,
             Shifted(BadgeImages(row.images), x.badgeShift) + Shifted(EmoteImages(spliced.images), x.emoteShift),
             NameColor(user.color))
  }

  /** The line onTwitchChat posts, or None when its emote loops throw. */
  function Compose(format: string, channel: string, user: TwitchUser, message: string, data: TwitchData): (r: Option<ChatLine>)
    requires Composable(format, channel, user, data)
    ensures ReadTag(user.emotes, data.emoteWidths).None? ==> r.None?
    ensures r.Some? ==>
      && SpliceTag(user.emotes, message, data.emoteWidths).Some?
      && r.value.managed
      && |r.value.images| == |Place([], 0, user.badges, channel, data.badges).images|
                             + |SpliceTag(user.emotes, message, data.emoteWidths).value.images|
  {
    match SpliceTag(user.emotes, message, data.emoteWidths)
    case None => None
    case Some(spliced) => Some(Line(format, channel, user, spliced, data))
  }

  /** An image covers only spaces of the text. */
  predicate OnSpaces(text: string, image: ChatImage) {
    image.index + image.spaces <= |text| && AllSpaces(text[image.index..image.index + image.spaces])
  }

  lemma SliceOfSlice(text: string, off: nat, inner: string, a: nat, b: nat)
    requires off + |inner| <= |text| && text[off..off + |inner|] == inner
    requires a <= b <= |inner|
    ensures text[off + a..off + b] == inner[a..b]
  {
    forall i | 0 <= i < b - a ensures text[off + a..off + b][i] == inner[a..b][i] {
      assert inner[a..b][i] == inner[a + i] == text[off..off + |inner|][a + i];
    }
  }

  lemma SpacesSlice(n: nat, a: nat, b: nat)
    requires a <= b <= n
    ensures AllSpaces(Spaces(n)[a..b])
  {
    forall i | 0 <= i < b - a ensures Spaces(n)[a..b][i] == ' ' {
      assert Spaces(n)[a..b][i] == Spaces(n)[a + i];
    }
  }

  /** Images that cover spaces of `inner` cover spaces of a text holding `inner` at `off`, once moved by `off`. */
  lemma ShiftedOnSpaces(text: string, off: nat, inner: string, images: seq<ChatImage>)
    requires off + |inner| <= |text| && text[off..off + |inner|] == inner
    requires forall k :: 0 <= k < |images| ==> OnSpaces(inner, images[k])
    ensures forall k :: 0 <= k < |images| ==> OnSpaces(text, Shifted(images, off)[k])
  {
    forall k | 0 <= k < |images| ensures OnSpaces(text, Shifted(images, off)[k]) {
      var img := images[k];
      SliceOfSlice(text, off, inner, img.index, img.index + img.spaces);
    }
  }

  /** The emote images of a splice cover spaces of the spliced text. */
  lemma EmoteImagesOnSpaces(text: string, images: seq<EmoteImage>)
    requires AllMarkSpaces(text, images)
    ensures forall k :: 0 <= k < |images| ==> OnSpaces(text, EmoteImages(images)[k])
  {
    forall k | 0 <= k < |images| ensures OnSpaces(text, EmoteImages(images)[k]) {
      assert MarksSpaces(text, images[k]);
    }
  }

  /** Abutting badge images cover spaces of a text that starts with the row's spaces. */
  lemma BadgeImagesOnSpaces(text: string, row: BadgeRow)
    requires Abutting(row) && row.end <= |text| && text[..row.end] == Spaces(row.end)
    ensures forall k :: 0 <= k < |row.images| ==> OnSpaces(text, BadgeImages(row.images)[k])
  {
    forall k | 0 <= k < |row.images| ensures OnSpaces(text, BadgeImages(row.images)[k]) {
      var a, b := row.images[k].index, row.images[k].index + row.images[k].spaces;
      AbuttingEnds(row, k);
      var prefix := text[..row.end];
      assert text[a..b] == prefix[a..b];
      SpacesSlice(row.end, a, b);
    }
  }

  /** The text of `%u` starts with the spaces of the badge row. */
  lemma UserTextStartsWithSpaces(args: FormatArgs)
    ensures args.badgeOffset <= |UserText(args)| && UserText(args)[..args.badgeOffset] == Spaces(args.badgeOffset)
  {
    assert UserText(args) == Spaces(args.badgeOffset) + (args.rgbMarker + args.displayName);
  }

  /** What a line is made of, with the texts and image lists named. */
  lemma LineParts(format: string, channel: string, user: TwitchUser, spliced: Spliced, data: TwitchData)
    requires Composable(format, channel, user, data)
    ensures var line := Line(format, channel, user, spliced, data);
      var x := Expand(Tokenize(format), Arguments(channel, user, spliced, data));
      var row := Place([], 0, user.badges, channel, data.badges);
      && line.component.text == x.text
      && line.images == Shifted(BadgeImages(row.images), x.badgeShift) + Shifted(EmoteImages(spliced.images), x.emoteShift)
  {
  }

  lemma BadgesOnSpaces(format: string, channel: string, user: TwitchUser, spliced: Spliced, data: TwitchData, ku: nat)
    requires Composable(format, channel, user, data)
    requires OnlyAt(Tokenize(format), ku, true)
    ensures var line := Line(format, channel, user, spliced, data);
      var row := Place([], 0, user.badges, channel, data.badges);
      |line.images| >= |row.images| &&
      forall k :: 0 <= k < |row.images| ==> OnSpaces(line.component.text, line.images[k])
  {
    var parts := Tokenize(format);
    var args := Arguments(channel, user, spliced, data);
    var row := Place([], 0, user.badges, channel, data.badges);
    var x := Expand(parts, args);
    UserPlacement(parts, ku, args);
    BadgesAbut(user.badges, channel, data.badges);
    assert args.badgeOffset == row.end;
    UserTextStartsWithSpaces(args);
    BadgeImagesOnSpaces(UserText(args), row);
    ShiftedOnSpaces(x.text, x.badgeShift, UserText(args), BadgeImages(row.images));
    LineParts(format, channel, user, spliced, data);
  }

  lemma EmotesOnSpaces(format: string, channel: string, user: TwitchUser, spliced: Spliced, data: TwitchData, km: nat)
    requires Composable(format, channel, user, data)
    requires OnlyAt(Tokenize(format), km, false)
    requires AllMarkSpaces(spliced.text, spliced.images)
    ensures var line := Line(format, channel, user, spliced, data);
      var row := Place([], 0, user.badges, channel, data.badges);
      |line.images| == |row.images| + |spliced.images| &&
      forall k :: |row.images| <= k < |line.images| ==> OnSpaces(line.component.text, line.images[k])
  {
    var parts := Tokenize(format);
    var args := Arguments(channel, user, spliced, data);
    var x := Expand(parts, args);
    MessagePlacement(parts, km, args);
    EmoteImagesOnSpaces(spliced.text, spliced.images);
    ShiftedOnSpaces(x.text, x.emoteShift, spliced.text, EmoteImages(spliced.images));
    LineParts(format, channel, user, spliced, data);
  }

  /**
   * With one `%u` and one `%m` in the format, every image of a posted line,
   * badge or emote, covers a run of spaces of the line text: the images land
   * where the splice and the badge offset made room for them. The badge
   * images come first, one per resolved badge, then one emote image per
   * occurrence read from the tag.
   */
  lemma ImagesLandOnSpaces(format: string, channel: string, user: TwitchUser, message: string, data: TwitchData,
                           ku: nat, km: nat)
    requires Composable(format, channel, user, data)
    requires OnlyAt(Tokenize(format), ku, true) && OnlyAt(Tokenize(format), km, false)
    requires Compose(format, channel, user, message, data).Some?
    ensures ReadTag(user.emotes, data.emoteWidths).Some?
    ensures var line := Compose(format, channel, user, message, data).value;
      && |line.images| == |Resolved(user.badges, channel, data.badges)| + |ReadTag(user.emotes, data.emoteWidths).value|
      && forall k :: 0 <= k < |line.images| ==> OnSpaces(line.component.text, line.images[k])
  {
    var rs := ReadTag(user.emotes, data.emoteWidths).value;
    var spliced := Splice(message, rs).value;
    SpliceImagesMarkSpaces(message, rs);
    BadgesOnSpaces(format, channel, user, spliced, data, ku);
    EmotesOnSpaces(format, channel, user, spliced, data, km);
    BadgeRowTiled(user.badges, channel, data.badges);
  }

  // ---------------------------------------------------------------------
  // What a timeout does to a line
  // ---------------------------------------------------------------------

  function Struck(line: ChatLine): ChatLine {
    line.(component := line.component.(strikethrough := true))
  }

  /** The replacement component: `<username>: <message deleted>`, italic and grey. */
  function DeletedNotice(username: string): Component {
    Component(username + ": <message deleted>", false, true, true)
  }

  /** The Strikethrough case of onTimeout: the lines named are struck through, and only those. */
  function WithStrikethrough(lines: map<nat, ChatLine>, ids: set<nat>): (r: map<nat, ChatLine>)
    ensures r.Keys == lines.Keys
    ensures forall id :: id in lines && id !in ids ==> r[id] == lines[id]
    ensures forall id :: id in lines && id in ids ==>
      r[id].component.strikethrough && r[id].component.text == lines[id].component.text && r[id].images == lines[id].images
  {
    map id | id in lines :: if id in ids then Struck(lines[id]) else lines[id]
  }

  /** The Replace case of onTimeout: the lines named get the deleted notice and keep their images, the others stay. */
  function WithDeletedNotice(lines: map<nat, ChatLine>, ids: set<nat>, username: string): (r: map<nat, ChatLine>)
    ensures r.Keys == lines.Keys
    ensures forall id :: id in lines && id !in ids ==> r[id] == lines[id]
    ensures forall id :: id in lines && id in ids ==>
      r[id].component.text == username + ": <message deleted>" && r[id].component.italic && r[id].images == lines[id].images
  {
    map id | id in lines :: if id in ids then lines[id].(component := DeletedNotice(username)) else lines[id]
  }

  /** Striking through twice is striking through once. */
  lemma StrikethroughIdempotent(lines: map<nat, ChatLine>, ids: set<nat>)
    ensures WithStrikethrough(WithStrikethrough(lines, ids), ids) == WithStrikethrough(lines, ids)
  {
  }

  /** Replacing twice is replacing once. */
  lemma DeletedNoticeIdempotent(lines: map<nat, ChatLine>, ids: set<nat>, username: string)
    ensures WithDeletedNotice(WithDeletedNotice(lines, ids, username), ids, username) == WithDeletedNotice(lines, ids, username)
  {
  }

  /** Striking one more line through. */
  lemma StrikeOneMore(lines: map<nat, ChatLine>, ids: set<nat>, id: nat)
    requires id in lines
    ensures var struck := WithStrikethrough(lines, ids);
      struck[id := Struck(struck[id])] == WithStrikethrough(lines, ids + {id})
  {
  }

  /** Replacing one more line by the notice. */
  lemma ReplaceOneMore(lines: map<nat, ChatLine>, ids: set<nat>, id: nat, username: string)
    requires id in lines
    ensures var replaced := WithDeletedNotice(lines, ids, username);
      replaced[id := replaced[id].(component := DeletedNotice(username))] == WithDeletedNotice(lines, ids + {id}, username)
  {
  }

  /** `messages.get(nick)`: the lines logged for a user, none when the user is unknown. */
  function Logged(messages: map<string, seq<nat>>, nick: string): seq<nat> {
    if nick in messages then messages[nick] else []
  }

  /** Every line id logged for one of `nicks`. */
  function LoggedBy(messages: map<string, seq<nat>>, nicks: set<string>): set<nat> {
    set nick, id | nick in nicks && nick in messages && id in messages[nick] :: id
  }

  lemma LoggedByAdd(messages: map<string, seq<nat>>, nicks: set<string>, nick: string)
    requires nick in messages
    ensures LoggedBy(messages, nicks + {nick}) == LoggedBy(messages, nicks) + Elements(messages[nick])
  {
  }

  // ---------------------------------------------------------------------
  // The handler
  // ---------------------------------------------------------------------

  class TwitchChatHandler {
    /** The `activeChannels` list: it starts empty and nothing in the handler ever adds to it. */
    var activeChannels: seq<string>
    /** The lines posted per user nick, oldest first (the `messages` multimap). */
    var messages: map<string, seq<nat>>
    var tmpBadges: seq<ChatImage>
    var tmpEmotes: seq<ChatImage>
    var lines: map<nat, ChatLine>
    var shown: set<nat>
    var nextId: nat

    /**
     * Every logged id names a line, every shown id too, and all ids were
     * given out; the channel list is still empty.
     */
    ghost predicate Valid()
      reads this
    {
      && activeChannels == []
      && shown <= lines.Keys
      && (forall id :: id in lines ==> id < nextId)
      && (forall nick, i :: nick in messages && 0 <= i < |messages[nick]| ==> messages[nick][i] in lines)
    }

    constructor ()
      ensures Valid()
      ensures activeChannels == [] && messages == map[] && lines == map[] && shown == {} && nextId == 0
      ensures tmpBadges == [] && tmpEmotes == []
    {
      activeChannels := [];
      messages := map[];
      tmpBadges := [];
      tmpEmotes := [];
      lines := map[];
      shown := {};
      nextId := 0;
    }

    /** isMultiMode: more than one active channel; the handler never adds one, so it never holds. */
    function IsMultiMode(): (multi: bool)
      reads this
      ensures multi <==> |activeChannels| > 1
      ensures Valid() ==> !multi
    {
      |activeChannels| > 1
    }

    /** The images, each moved `d` to the right, one at a time (`chatImage.setIndex`). */
    static method MoveImages(images: seq<ChatImage>, d: nat) returns (moved: seq<ChatImage>)
      ensures moved == Shifted(images, d)
    {
      moved := images;
      var i := 0;
      while i < |moved|
        invariant 0 <= i <= |moved| == |images|
        invariant forall k :: 0 <= k < i ==> moved[k] == images[k].(index := images[k].index + d)
        invariant forall k :: i <= k < |moved| ==> moved[k] == images[k]
      {
        moved := moved[i := moved[i].(index := moved[i].index + d)];
        i := i + 1;
      }
    }

    /**
     * formatComponent: the text of the formatted line; on the way the badge
     * images move by the text length at `%u` and the emote images at `%m`.
     */
    method FormatComponent(format: string, args: FormatArgs) returns (text: string)
      modifies this`tmpBadges, this`tmpEmotes
      requires FormatHandled(format)
      ensures var x := Expand(Tokenize(format), args);
        && text == x.text
        && tmpBadges == Shifted(old(tmpBadges), x.badgeShift)
        && tmpEmotes == Shifted(old(tmpEmotes), x.emoteShift)
    {
      var parts := Tokenize(format);
      ghost var goal := Expand(parts, args);
      ghost var badges0, emotes0 := tmpBadges, tmpEmotes;
      ghost var badgeShift: nat, emoteShift: nat := 0, 0;
      assert Shifted(badges0, 0) == badges0 && Shifted(emotes0, 0) == emotes0;
      text := "";
      var i := 0;
      while i < |parts|
        invariant 0 <= i <= |parts|
        invariant ExpandFrom(Expansion(text, badgeShift, emoteShift), parts[i..], args) == goal
        invariant tmpBadges == Shifted(badges0, badgeShift) && tmpEmotes == Shifted(emotes0, emoteShift)
      {
        var key := parts[i];
        assert parts[i..][0] == key && parts[i..][1..] == parts[i + 1..];
        if key[0] == '%' {
          if key[1] == 'c' {
            text := text + args.channel;
          } else if key[1] == 'u' {
            tmpBadges := MoveImages(tmpBadges, |text|);
            ShiftedTwice(badges0, badgeShift, |text|);
            badgeShift := badgeShift + |text|;
            text := text + (Spaces(args.badgeOffset) + args.rgbMarker + args.displayName);
          } else if key[1] == 'm' {
            tmpEmotes := MoveImages(tmpEmotes, |text|);
            ShiftedTwice(emotes0, emoteShift, |text|);
            emoteShift := emoteShift + |text|;
            text := text + args.message;
          }
        } else {
          text := text + key;
        }
        i := i + 1;
      }
      assert parts[i..] == [];
    }

    /**
     * onTwitchChat: the line is composed, posted to the chat, and logged
     * under the user's nick. When the emote loops throw (a `parseInt` or a
     * `substring` of a malformed tag) the exception leaves onTwitchChat:
     * `thrown` is set, and no line is posted or logged.
     */
    method OnTwitchChat(format: string, channel: string, user: TwitchUser, message: string, data: TwitchData)
        returns (thrown: bool)
      modifies this`tmpBadges, this`tmpEmotes, this`lines, this`shown, this`nextId, this`messages
      requires Valid()
      requires Composable(format, channel, user, data)
      ensures Valid()
      ensures thrown <==> Compose(format, channel, user, message, data).None?
      ensures thrown ==> lines == old(lines) && shown == old(shown) && nextId == old(nextId) && messages == old(messages)
      ensures !thrown ==>
        && nextId == old(nextId) + 1
        && lines == old(lines)[old(nextId) := Compose(format, channel, user, message, data).value]
        && shown == old(shown) + {old(nextId)}
        && messages == old(messages)[user.nick := Logged(old(messages), user.nick) + [old(nextId)]]
        && tmpBadges + tmpEmotes == lines[old(nextId)].images
    {
      var line := ComposeLine(format, channel, user, message, data);
      thrown := line.None?;
      if !thrown {
        PostLine(user.nick, line.value);
      }
    }

    /**
     * The first part of onTwitchChat: the emotes, the badges and the formatted
     * text, put together as a line; None when the emote loops throw, in
     * which case the badge images are not touched.
     */
    method ComposeLine(format: string, channel: string, user: TwitchUser, message: string, data: TwitchData)
        returns (line: Option<ChatLine>)
      modifies this`tmpBadges, this`tmpEmotes
      requires Composable(format, channel, user, data)
      ensures line == Compose(format, channel, user, message, data)
      ensures line.None? ==> tmpBadges == old(tmpBadges)
      ensures line.Some? ==> tmpBadges + tmpEmotes == line.value.images
    {
      var thrown, text, emoteImages := SpliceEmotes(user.emotes, message, data.emoteWidths);
      tmpEmotes := EmoteImages(emoteImages);
      if thrown {
        return None;
      }
      var spliced := Spliced(text, emoteImages);
      var badgeImages, badgeIndex := ResolveBadges(user.badges, channel, data.badges);
      tmpBadges := BadgeImages(badgeImages);
      var args := FormatArgs(channel, user.displayName, text, badgeIndex, data.rgbMarker);
      assert args == Arguments(channel, user, spliced, data);
      var formatted := FormatComponent(format, args);
      line := Some(ChatLine(Plain(formatted), true, tmpBadges + tmpEmotes, NameColor(user.color)));
      assert line.value == Line(format, channel, user, spliced, data);
    }

    /** The second part of onTwitchChat: the line gets the next id, is shown, and is logged under `nick`. */
    method PostLine(nick: string, line: ChatLine)
      modifies this`lines, this`shown, this`nextId, this`messages
      requires Valid()
      ensures Valid()
      ensures nextId == old(nextId) + 1
      ensures lines == old(lines)[old(nextId) := line]
      ensures shown == old(shown) + {old(nextId)}
      ensures messages == old(messages)[nick := Logged(old(messages), nick) + [old(nextId)]]
    {
      var id := nextId;
      nextId := nextId + 1;
      lines := lines[id := line];
      shown := shown + {id};
      messages := messages[nick := Logged(messages, nick) + [id]];
    }

    /**
     * onChatMessage: the multi-channel format when more than one channel is
     * active; since the handler never activates a channel, the single format.
     */
    method OnChatMessage(formats: Formats, channel: string, user: TwitchUser, message: string, data: TwitchData)
        returns (thrown: bool)
      modifies this`tmpBadges, this`tmpEmotes, this`lines, this`shown, this`nextId, this`messages
      requires Valid()
      requires Composable(if |activeChannels| > 1 then formats.multiMessage else formats.singleMessage,
                          channel, user, data)
      ensures Valid()
      ensures var line := Compose(if |old(activeChannels)| > 1 then formats.multiMessage else formats.singleMessage,
                                  channel, user, message, data);
        && (thrown <==> line.None?)
        && (thrown ==> lines == old(lines) && shown == old(shown) && nextId == old(nextId) && messages == old(messages))
        && (!thrown ==> lines == old(lines)[old(nextId) := line.value])
      ensures !thrown ==>
        && lines[old(nextId)] == Compose(formats.singleMessage, channel, user, message, data).value
        && shown == old(shown) + {old(nextId)} && nextId == old(nextId) + 1
        && messages == old(messages)[user.nick := Logged(old(messages), user.nick) + [old(nextId)]]
    {
      thrown := OnTwitchChat(if IsMultiMode() then formats.multiMessage else formats.singleMessage,
                             channel, user, message, data);
    }

    /** onActionMessage: the same, with the `/me` formats. */
    method OnActionMessage(formats: Formats, channel: string, user: TwitchUser, message: string, data: TwitchData)
        returns (thrown: bool)
      modifies this`tmpBadges, this`tmpEmotes, this`lines, this`shown, this`nextId, this`messages
      requires Valid()
      requires Composable(if |activeChannels| > 1 then formats.multiEmote else formats.singleEmote,
                          channel, user, data)
      ensures Valid()
      ensures var line := Compose(if |old(activeChannels)| > 1 then formats.multiEmote else formats.singleEmote,
                                  channel, user, message, data);
        && (thrown <==> line.None?)
        && (thrown ==> lines == old(lines) && shown == old(shown) && nextId == old(nextId) && messages == old(messages))
        && (!thrown ==> lines == old(lines)[old(nextId) := line.value])
      ensures !thrown ==>
        && lines[old(nextId)] == Compose(formats.singleEmote, channel, user, message, data).value
        && shown == old(shown) + {old(nextId)} && nextId == old(nextId) + 1
        && messages == old(messages)[user.nick := Logged(old(messages), user.nick) + [old(nextId)]]
    {
      thrown := OnTwitchChat(if IsMultiMode() then formats.multiEmote else formats.singleEmote,
                             channel, user, message, data);
    }

    /** removeChatLine for each id in turn. */
    method RemoveLines(ids: seq<nat>)
      modifies this`shown
      ensures shown == old(shown) - Elements(ids)
    {
      var i := 0;
      while i < |ids|
        invariant 0 <= i <= |ids|
        invariant shown == old(shown) - Elements(ids[..i])
      {
        assert Elements(ids[..i + 1]) == Elements(ids[..i]) + {ids[i]} by {
          assert ids[..i + 1] == ids[..i] + [ids[i]];
        }
        shown := shown - {ids[i]};
        i := i + 1;
      }
      assert ids[..i] == ids;
    }

    /** The Strikethrough case of onTimeout: each line named is struck through in turn. */
    method StrikeLines(ids: seq<nat>)
      modifies this`lines
      requires forall i :: 0 <= i < |ids| ==> ids[i] in lines
      ensures lines == WithStrikethrough(old(lines), Elements(ids))
    {
      var i := 0;
      while i < |ids|
        invariant 0 <= i <= |ids|
        invariant lines == WithStrikethrough(old(lines), Elements(ids[..i]))
        invariant lines.Keys == old(lines).Keys
      {
        assert Elements(ids[..i + 1]) == Elements(ids[..i]) + {ids[i]} by {
          assert ids[..i + 1] == ids[..i] + [ids[i]];
        }
        StrikeOneMore(old(lines), Elements(ids[..i]), ids[i]);
        lines := lines[ids[i] := Struck(lines[ids[i]])];
        i := i + 1;
      }
      assert ids[..i] == ids;
    }

    /** The Replace case of onTimeout: each line named gets the deleted notice in turn. */
    method ReplaceLines(ids: seq<nat>, username: string)
      modifies this`lines
      requires forall i :: 0 <= i < |ids| ==> ids[i] in lines
      ensures lines == WithDeletedNotice(old(lines), Elements(ids), username)
    {
      var i := 0;
      while i < |ids|
        invariant 0 <= i <= |ids|
        invariant lines == WithDeletedNotice(old(lines), Elements(ids[..i]), username)
        invariant lines.Keys == old(lines).Keys
      {
        assert Elements(ids[..i + 1]) == Elements(ids[..i]) + {ids[i]} by {
          assert ids[..i + 1] == ids[..i] + [ids[i]];
        }
        ReplaceOneMore(old(lines), Elements(ids[..i]), ids[i], username);
        var removed := DeletedNotice(username);
        lines := lines[ids[i] := lines[ids[i]].(component := removed)];
        i := i + 1;
      }
      assert ids[..i] == ids;
    }

    /**
     * onTimeout: the lines logged for `username` are hidden, struck through
     * or replaced by a notice, as the channel's setting says; nothing happens
     * for a channel that is not a known twitch channel (`mode` is None).
     */
    method OnTimeout(mode: Option<DeletedMessages>, username: string)
      modifies this`lines, this`shown
      requires Valid()
      ensures Valid()
      ensures var ids := Elements(Logged(old(messages), username));
        match mode
        case None => lines == old(lines) && shown == old(shown)
        case Some(Hide) => lines == old(lines) && shown == old(shown) - ids
        case Some(Strikethrough) => lines == WithStrikethrough(old(lines), ids) && shown == old(shown)
        case Some(Replace) => lines == WithDeletedNotice(old(lines), ids, username) && shown == old(shown)
    {
      var logged := Logged(messages, username);
      if mode == Some(Hide) {
        RemoveLines(logged);
      } else if mode == Some(Strikethrough) {
        StrikeLines(logged);
        StrikethroughIdempotent(old(lines), Elements(logged));
      } else if mode == Some(Replace) {
        ReplaceLines(logged, username);
        DeletedNoticeIdempotent(old(lines), Elements(logged), username);
      }
    }

    /** onClearChat: every logged line, of every user and every channel, is removed from the chat. */
    method OnClearChat(channel: string)
      modifies this`shown
      requires Valid()
      ensures Valid()
      ensures shown == old(shown) - LoggedBy(messages, messages.Keys)
    {
      var nicks := messages.Keys;
      while nicks != {}
        invariant nicks <= messages.Keys
        invariant shown == old(shown) - LoggedBy(messages, messages.Keys - nicks)
        decreases |nicks|
      {
        var nick :| nick in nicks;
        LoggedByAdd(messages, messages.Keys - nicks, nick);
        assert messages.Keys - (nicks - {nick}) == messages.Keys - nicks + {nick};
        RemoveLines(messages[nick]);
        nicks := nicks - {nick};
      }
      assert messages.Keys - nicks == messages.Keys;
    }
  }
}
