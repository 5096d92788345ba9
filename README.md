# ChatTweaks: Twitch message lines and the chat-view registry

This project models two parts of ChatTweaks, a Minecraft chat mod.

**Twitch chat handler** (`TwitchChatHandler`). It turns a Twitch chat message into a chat line:

- **Emotes.** The positional emote tag (entries `id:start-end,start-end`) is read entry by entry. Every occurrence of a known emote has its character range replaced by a run of spaces as wide as the emote image, and the image is recorded at the position of that run.
- **Badges.** Each badge tag `name/version` is cut to its name and looked up. Each badge that resolves gets an image, placed at the sum of the widths of the badges before it.
- **Format.** The format string is expanded over `%c` (the channel), `%u` (the badge spaces, the colour marker and the display name) and `%m` (the spliced message). At `%u` the badge images move right by the length of the text built so far, and at `%m` the emote images do.
- **Name colour.** The line gets the user's name colour, split into three bytes, or grey when there is none.

The handler logs every line it posts under the author's nick. On a timeout it hides, strikes through or replaces that user's logged lines, as the channel's setting says. On a clear-chat it removes every logged line.

**Chat-view registry** (`ChatViewManager`). It is a map of named views with these parts:

- **Name caches.** `viewNames` holds every key and `tabViewNames` the names of the Chat-style views. Both are rebuilt from the map.
- **Active view.** `getNextChatView` picks the next view cyclically, over the Chat-style names when there are any.
- **Routing.** `findChatViews` sends a message to every view that shows its channel and accepts its text, unless one of those views is exclusive.
- **Free names.** `getFreeChatViewName` hands out `New View (i)` names.
- **Updates.** The registry also supports rename, lookup-or-create, and removal. A removal that empties the registry puts back the default `*` view.
- **Load.** Loading falls back to the three default views.

Modules:

- `Strings` (strings.dfy): the `String`/`Integer` operations that are used.
- `Options` (option.dfy).
- `EmoteSplice` (emote_splice.dfy): the emote loops.
- `Badges` (badges.dfy): the badge loop.
- `MessageFormat` (message_format.dfy): formatComponent.
- `TwitchChat` (twitch_chat.dfy): the handler class with its message log and timeouts.
- `ChatViews` (chat_view.dfy): the parts of a ChatView that the registry uses.
- `ViewRegistry` (chat_view_manager.dfy): the registry class.

The Java statics of each class are the fields of one Dafny object. The order in which the `HashMap` iterates is the field `order`. It is some order of the keys, chosen arbitrarily anew whenever the key set changes.

The loops of the source are Dafny methods with loop invariants. Each is proved against a specification function or a stated result, and the properties are lemmas about those functions. The `addImage` loops that copy `tmpBadges` and `tmpEmotes` into the line (`TwitchChatHandler.java:108-113`) have no method of their own: they are the concatenation `tmpBadges + tmpEmotes` in `ComposeLine` and `Line`. Some methods are proved against recursive functions:

- `SpliceEmotes` is proved against `SpliceTag`: the tag read by `ReadTag`, then spliced by `Splice`.
- `ResolveBadges` is proved against `Place`.
- `FormatComponent` is proved against `Expand`.
- `RouteViews` is proved against `Route`.

Other methods are proved against a comprehension, a set expression or a stated result:

- `MoveImages` is proved against `Shifted`.
- `StrikeLines` is proved against `WithStrikethrough`, and `ReplaceLines` against `WithDeletedNotice`.
- `RemoveLines` is proved against the set difference of `shown` and the ids it is given. `OnClearChat` is proved against the difference of `shown` and `LoggedBy`, the ids of every logged line.
- `GetFreeChatViewName` is proved to return the smallest free candidate.
- `AddLoaded` is proved against `DistinctNames` and `NamesOf`.

## Model

| member | source | states |
|---|---|---|
| Strings.Spaces | src/main/java/net/blay09/mods/bmc/integration/twitch/TwitchChatHandler.java:73-75 | the appended run has exactly `n` characters, all spaces |
| Strings.IndexOf | src/main/java/net/blay09/mods/bmc/integration/twitch/TwitchChatHandler.java:56 | `indexOf` is -1 exactly when the character is absent; otherwise it is a position holding it with no earlier occurrence |
| Strings.Split | src/main/java/net/blay09/mods/bmc/integration/twitch/TwitchChatHandler.java:63 | `split(",")` gives at least one piece; its partners `SplitPieces`, `SplitJoinBack` and `SplitJoin` state what the pieces are |
| Strings.SplitPieces | src/main/java/net/blay09/mods/bmc/integration/twitch/TwitchChatHandler.java:63 | no piece of `split(",")` holds the separator |
| Strings.SplitJoinBack | src/main/java/net/blay09/mods/bmc/integration/twitch/TwitchChatHandler.java:63 | joining the pieces with the separator gives the input back (round trip) |
| Strings.SplitFirst | src/main/java/net/blay09/mods/bmc/integration/twitch/TwitchChatHandler.java:63 | splitting `a,rest` gives `a` followed by the split of `rest` |
| Strings.SplitJoin | src/main/java/net/blay09/mods/bmc/integration/twitch/TwitchChatHandler.java:63 | splitting a join of separator-free pieces gives the pieces back (round trip) |
| Strings.ToInt32 | src/main/java/net/blay09/mods/bmc/integration/twitch/TwitchChatHandler.java:77 | a Java `int` expression: the value wrapped modulo 2^32 into the `int` range, unchanged when it already fits |
| Strings.DigitZero | src/main/java/net/blay09/mods/bmc/integration/twitch/TwitchChatHandler.java:58 | a character of a Unicode decimal-digit block lies among the ten digits that start at the returned zero; -1 otherwise |
| Strings.JavaDigit | src/main/java/net/blay09/mods/bmc/integration/twitch/TwitchChatHandler.java:58 | `Character.digit(c, 10)` is -1 or a value 0..9; the ASCII digits have their own values, and no sign is a digit |
| Strings.DigitChar | src/main/java/net/blay09/mods/chattweaks/ChatViewManager.java:191 | each digit is rendered as an ASCII digit character that `Character.digit` reads back as that digit |
| Strings.ParseInt | src/main/java/net/blay09/mods/bmc/integration/twitch/TwitchChatHandler.java:58 | `Integer.parseInt` gives a value that fits an `int`, and a non-negative one when the text has no `-`; it fails on input it rejects |
| Strings.ParseIntPlus | src/main/java/net/blay09/mods/bmc/integration/twitch/TwitchChatHandler.java:67 | a leading `+` is accepted and changes nothing |
| Strings.ParseIntMinus | src/main/java/net/blay09/mods/bmc/integration/twitch/TwitchChatHandler.java:72 | a leading `-` negates the digits, down to -2^31, and a larger magnitude fails |
| Strings.ParseIntRejects | src/main/java/net/blay09/mods/bmc/integration/twitch/TwitchChatHandler.java:58 | the empty text and a lone sign are rejected |
| Strings.NatToString | src/main/java/net/blay09/mods/chattweaks/ChatViewManager.java:191 | `"" + i` is a non-empty run of decimal digits |
| Strings.ParseDigitsToString | src/main/java/net/blay09/mods/chattweaks/ChatViewManager.java:191 | reading the decimal rendering of a number digit by digit gives the number back (round trip) |
| Strings.ParseIntToString | src/main/java/net/blay09/mods/bmc/integration/twitch/TwitchChatHandler.java:58 | `Integer.parseInt` of a number's decimal rendering gives the number back exactly when it fits an `int`, and fails otherwise |
| Strings.NatToStringInjective | src/main/java/net/blay09/mods/chattweaks/ChatViewManager.java:191 | different numbers render to different strings |
| EmoteSplice.Collect | src/main/java/net/blay09/mods/bmc/integration/twitch/TwitchChatHandler.java:55-81 | reading a list of items succeeds exactly when every item reads; the results are concatenated in order |
| EmoteSplice.CollectAppend | src/main/java/net/blay09/mods/bmc/integration/twitch/TwitchChatHandler.java:55-81 | reading `a + b` is reading `a`, then `b`; a failure in either is a failure |
| EmoteSplice.Step | src/main/java/net/blay09/mods/bmc/integration/twitch/TwitchChatHandler.java:67-77 | one occurrence throws exactly when `index < start` and `substring(index, start)` is out of bounds |
| EmoteSplice.StepExtends | src/main/java/net/blay09/mods/bmc/integration/twitch/TwitchChatHandler.java:68-77 | an occurrence that does not throw moves `index` to the wrapped `end + 1`, keeps the text so far, appends exactly `width` spaces at the end, and records one image where they begin |
| EmoteSplice.RunExtends | src/main/java/net/blay09/mods/bmc/integration/twitch/TwitchChatHandler.java:63-79 | the loops, when they do not throw, only extend the text and the images, add one image per range, and leave `index` past the last end |
| EmoteSplice.Finish | src/main/java/net/blay09/mods/bmc/integration/twitch/TwitchChatHandler.java:82-84 | the final copy throws exactly when `index` is negative; otherwise it keeps the text and images, and adds nothing when `index` is at or past the end |
| EmoteSplice.Splice | src/main/java/net/blay09/mods/bmc/integration/twitch/TwitchChatHandler.java:52-85 | with no range the message comes out as itself, with no image |
| EmoteSplice.RunAppend | src/main/java/net/blay09/mods/bmc/integration/twitch/TwitchChatHandler.java:55-81 | running the splice over `a + b` is running it over `a`, then over `b` from where `a` left off; a throw in `a` ends it |
| EmoteSplice.RunFromConcat | src/main/java/net/blay09/mods/bmc/integration/twitch/TwitchChatHandler.java:55-81 | running two reads in sequence is running the first, then the second |
| EmoteSplice.AppendSpaces | src/main/java/net/blay09/mods/bmc/integration/twitch/TwitchChatHandler.java:73-75 | the builder gets exactly `width` spaces appended |
| EmoteSplice.SpliceOccurrence | src/main/java/net/blay09/mods/bmc/integration/twitch/TwitchChatHandler.java:65-78 | one occurrence gives exactly the outcome of the reference run over what it reads to: skipped without `-`, a throw when a side does not parse or the copy is out of bounds, otherwise one step |
| EmoteSplice.SpliceRange | src/main/java/net/blay09/mods/bmc/integration/twitch/TwitchChatHandler.java:68-77 | after the start is read: the copy, the end read, the spaces and the image, exactly as the reference run, throwing where it does |
| EmoteSplice.RunSingle | src/main/java/net/blay09/mods/bmc/integration/twitch/TwitchChatHandler.java:67-77 | running one range is taking one step |
| EmoteSplice.RunFromThrowingCopy | src/main/java/net/blay09/mods/bmc/integration/twitch/TwitchChatHandler.java:68-70 | a copy that throws makes the occurrence throw, whatever its end reads to |
| EmoteSplice.RunFromNextPiece | src/main/java/net/blay09/mods/bmc/integration/twitch/TwitchChatHandler.java:64-79 | the occurrences from `j` on are occurrence `j` followed by the rest |
| EmoteSplice.SpliceOccurrences | src/main/java/net/blay09/mods/bmc/integration/twitch/TwitchChatHandler.java:63-79 | the occurrence loop of one emote gives exactly the outcome of the reference run over the occurrences it reads, throwing where it does |
| EmoteSplice.SpliceEntry | src/main/java/net/blay09/mods/bmc/integration/twitch/TwitchChatHandler.java:56-80 | one entry gives exactly the outcome of the reference run over what it reads to: nothing without `:` or for an unknown id, a throw for an id that does not parse |
| EmoteSplice.RunFromNothing | src/main/java/net/blay09/mods/bmc/integration/twitch/TwitchChatHandler.java:59-62 | an entry that reads to no range changes nothing |
| EmoteSplice.RunFromNextEntry | src/main/java/net/blay09/mods/bmc/integration/twitch/TwitchChatHandler.java:55-81 | the entries from `i` on are entry `i` followed by the rest |
| EmoteSplice.SpliceEmotes | src/main/java/net/blay09/mods/bmc/integration/twitch/TwitchChatHandler.java:52-85 | the spliced message and the emote images are exactly `SpliceTag` (the tag read, then spliced), and `thrown` holds exactly when that throws |
| EmoteSplice.PiecesFitInt | src/main/java/net/blay09/mods/bmc/integration/twitch/TwitchChatHandler.java:66-77 | every start and end an occurrence reads is an `int`, and every start is non-negative |
| EmoteSplice.ReadTagFitsInt | src/main/java/net/blay09/mods/bmc/integration/twitch/TwitchChatHandler.java:58-77 | every id, start and end read from a tag is an `int`, with non-negative starts, so only `end + 1` can wrap |
| EmoteSplice.UnparsableIdThrows | src/main/java/net/blay09/mods/bmc/integration/twitch/TwitchChatHandler.java:56-58 | an entry whose id `parseInt` rejects makes the splice throw, wherever it stands in the tag |
| EmoteSplice.UnparsablePieceThrows | src/main/java/net/blay09/mods/bmc/integration/twitch/TwitchChatHandler.java:65-72 | an occurrence with a side `parseInt` rejects makes the reading of its emote throw |
| EmoteSplice.UnparsableOffsetThrows | src/main/java/net/blay09/mods/bmc/integration/twitch/TwitchChatHandler.java:63-72 | such an occurrence of a known emote makes the splice throw |
| EmoteSplice.NegativeIndexThrows | src/main/java/net/blay09/mods/bmc/integration/twitch/TwitchChatHandler.java:68-84 | from a negative `index` the next copy, or the final one, throws |
| EmoteSplice.SpliceFromAppend | src/main/java/net/blay09/mods/bmc/integration/twitch/TwitchChatHandler.java:55-84 | the splice of `a + b` is the run over `a`, then the splice of `b` from where it left off |
| EmoteSplice.NegativeEndSpliceThrows | src/main/java/net/blay09/mods/bmc/integration/twitch/TwitchChatHandler.java:77 | an end below -1, or the largest `int` (whose `end + 1` wraps), makes the splice throw |
| EmoteSplice.NegativeEndThrows | src/main/java/net/blay09/mods/bmc/integration/twitch/TwitchChatHandler.java:72-84 | the same for a range read from a tag |
| EmoteSplice.AppendKeepsMarks | src/main/java/net/blay09/mods/bmc/integration/twitch/TwitchChatHandler.java:69-83 | appending to the builder keeps every recorded image over its spaces |
| EmoteSplice.StepShape | src/main/java/net/blay09/mods/bmc/integration/twitch/TwitchChatHandler.java:68-77 | one occurrence that does not throw keeps the earlier images over their spaces and puts the new one over its run of `width` spaces |
| EmoteSplice.RunShape | src/main/java/net/blay09/mods/bmc/integration/twitch/TwitchChatHandler.java:63-79 | a run that does not throw adds one image per range with its id and width, each over its spaces |
| EmoteSplice.SpliceImagesMarkSpaces | src/main/java/net/blay09/mods/bmc/integration/twitch/TwitchChatHandler.java:52-85 | for any order of ranges, when the splice does not throw: one image per occurrence, each inside the output over exactly `width` spaces |
| EmoteSplice.OrderedStep | src/main/java/net/blay09/mods/bmc/integration/twitch/TwitchChatHandler.java:67-77 | for an ordered range at or after `index`, a step does not throw, `end + 1` does not wrap, and the text between is copied before the spaces |
| EmoteSplice.SpliceFromNothing | src/main/java/net/blay09/mods/bmc/integration/twitch/TwitchChatHandler.java:82-84 | with no range left, the rest of the message is copied |
| EmoteSplice.SpliceFromStep | src/main/java/net/blay09/mods/bmc/integration/twitch/TwitchChatHandler.java:64-84 | a step that does not throw hands the remaining ranges to the state it leaves |
| EmoteSplice.RunOrdered | src/main/java/net/blay09/mods/bmc/integration/twitch/TwitchChatHandler.java:55-85 | for ordered ranges the splice does not throw, and the text is the text so far plus the rest of the message with each range replaced by its spaces |
| EmoteSplice.RunImagesOrdered | src/main/java/net/blay09/mods/bmc/integration/twitch/TwitchChatHandler.java:71-77 | for ordered ranges, image `k` sits at the range's start moved by the growth from the earlier replacements |
| EmoteSplice.SpliceOrdered | src/main/java/net/blay09/mods/bmc/integration/twitch/TwitchChatHandler.java:52-85 | for ascending, disjoint ranges: no throw, the output is the message with each `[start,end]` replaced by exactly `width` spaces and the text between kept in order, and image `k` sits where range `k` starts plus the earlier growth |
| EmoteSplice.DashlessPiecesGiveNothing | src/main/java/net/blay09/mods/bmc/integration/twitch/TwitchChatHandler.java:65-66 | occurrences without `-` read to no range and throw nothing |
| EmoteSplice.UnusableEntryGivesNothing | src/main/java/net/blay09/mods/bmc/integration/twitch/TwitchChatHandler.java:56-66 | an entry with no `:`, an unknown id, or no occurrence with `-` reads to no range and throws nothing |
| EmoteSplice.UnusableEntriesGiveNoRanges | src/main/java/net/blay09/mods/bmc/integration/twitch/TwitchChatHandler.java:55-66 | a tag of such entries reads to no range |
| EmoteSplice.NoUsableEmotesKeepMessage | src/main/java/net/blay09/mods/bmc/integration/twitch/TwitchChatHandler.java:82-85 | with no usable entry the message comes out unchanged and no image is recorded |
| EmoteSplice.ReadTagAppend | src/main/java/net/blay09/mods/bmc/integration/twitch/TwitchChatHandler.java:55 | the ranges of two lists of entries are those of the first followed by those of the second, and either throwing throws |
| EmoteSplice.SkippedEntryChangesNothing | src/main/java/net/blay09/mods/bmc/integration/twitch/TwitchChatHandler.java:56-62 | dropping an unusable entry from the tag changes neither what it reads to nor whether it throws |
| EmoteSplice.ReadEntryParts | src/main/java/net/blay09/mods/bmc/integration/twitch/TwitchChatHandler.java:56-63 | an entry `id:occurrences` reads its id with `parseInt`: a rejected id throws, an unknown one gives nothing, a known one gives its occurrences |
| EmoteSplice.ReadPieceParts | src/main/java/net/blay09/mods/bmc/integration/twitch/TwitchChatHandler.java:65-72 | an occurrence `start-end` reads both sides with `parseInt`, and throws when either is rejected |
| EmoteSplice.ReadTagSingle | src/main/java/net/blay09/mods/bmc/integration/twitch/TwitchChatHandler.java:55 | a tag of one entry reads as that entry |
| EmoteSplice.ReadPiecesSingle | src/main/java/net/blay09/mods/bmc/integration/twitch/TwitchChatHandler.java:64 | one occurrence reads as that piece |
| EmoteSplice.ReadSingle | src/main/java/net/blay09/mods/bmc/integration/twitch/TwitchChatHandler.java:55-72 | an entry with one occurrence reads to its one range |
| EmoteSplice.SignedTagReads | src/main/java/net/blay09/mods/bmc/integration/twitch/TwitchChatHandler.java:58-72 | `+25:+0-+4` reads as emote 25 over 0..4 |
| EmoteSplice.ArabicIndicIdReads | src/main/java/net/blay09/mods/bmc/integration/twitch/TwitchChatHandler.java:58 | `٢٥:0-4`, with the id in Arabic-Indic digits, reads as emote 25 over 0..4 |
| Badges.BadgeName | src/main/java/net/blay09/mods/bmc/integration/twitch/TwitchChatHandler.java:89-92 | the name is the prefix of the tag before its first `/`, or the whole tag when it has none |
| Badges.LookupBadgeKnown | src/main/java/net/blay09/mods/bmc/integration/twitch/TwitchChatHandler.java:93-98 | a badge is known exactly when its table holds it: the subscriber badge under the channel without its first character, any other under its name |
| Badges.PlaceNext | src/main/java/net/blay09/mods/bmc/integration/twitch/TwitchChatHandler.java:88-104 | the badge at `i` is skipped when unknown, or appended at the current offset, which moves by its width |
| Badges.ResolveBadges | src/main/java/net/blay09/mods/bmc/integration/twitch/TwitchChatHandler.java:86-104 | `tmpBadges` and `badgeIndex` are exactly the specification row `Place` of the tag list |
| Badges.TiledAppend | src/main/java/net/blay09/mods/bmc/integration/twitch/TwitchChatHandler.java:100-102 | an image appended at the end offset keeps the row tiled, ending `w` further |
| Badges.PlaceStep | src/main/java/net/blay09/mods/bmc/integration/twitch/TwitchChatHandler.java:93-103 | one badge adds one image and one resolved pair when it resolves, and nothing when it does not |
| Badges.PlaceTiled | src/main/java/net/blay09/mods/bmc/integration/twitch/TwitchChatHandler.java:88-104 | the placement keeps the row tiled: each image at the sum of the spaces before it, the end at the total |
| Badges.DescribesCons | src/main/java/net/blay09/mods/bmc/integration/twitch/TwitchChatHandler.java:102 | an image added in front of a described row describes its badge followed by the rest |
| Badges.PlaceDescribes | src/main/java/net/blay09/mods/bmc/integration/twitch/TwitchChatHandler.java:88-104 | the images added are those of the resolved badges, in tag order, with their names and widths |
| Badges.BadgeRowTiled | src/main/java/net/blay09/mods/bmc/integration/twitch/TwitchChatHandler.java:86-104 | one image per resolved badge in tag order, each at the sum of the spaces of the earlier ones, and `badgeIndex` is their total |
| Badges.TiledEnds | src/main/java/net/blay09/mods/bmc/integration/twitch/TwitchChatHandler.java:101 | in a tiled row each image ends where the spaces up to it end, at most at the row's end |
| Badges.BadgesAbut | src/main/java/net/blay09/mods/bmc/integration/twitch/TwitchChatHandler.java:99-103 | consecutive badge images abut, and all of them end by `badgeIndex` |
| Badges.SpaceSumPrefix | src/main/java/net/blay09/mods/bmc/integration/twitch/TwitchChatHandler.java:101 | the spaces of the first `n` badges are at most those of all of them |
| Badges.ResolvedAppend | src/main/java/net/blay09/mods/bmc/integration/twitch/TwitchChatHandler.java:88 | the resolved badges of two tag lists are those of the first followed by those of the second |
| Badges.UnknownResolvesToNothing | src/main/java/net/blay09/mods/bmc/integration/twitch/TwitchChatHandler.java:99 | a badge the lookups do not know resolves to nothing |
| Badges.UnknownBadgeSkipped | src/main/java/net/blay09/mods/bmc/integration/twitch/TwitchChatHandler.java:93-99 | dropping an unknown badge from the tag list changes nothing |
| MessageFormat.LiteralEnd | src/main/java/net/blay09/mods/bmc/integration/twitch/TwitchChatHandler.java:194 | a literal part ends at the next placeholder or at the end of the format, with no placeholder inside it |
| MessageFormat.LiteralHasNoPlaceholder | src/main/java/net/blay09/mods/bmc/integration/twitch/TwitchChatHandler.java:194 | a literal cut at the first placeholder holds none |
| MessageFormat.Tokenize | src/main/java/net/blay09/mods/bmc/integration/twitch/TwitchChatHandler.java:194 | the split parts concatenate to the format; each is non-empty and either a placeholder or placeholder-free, and no two literals are adjacent |
| MessageFormat.PlainFormatIsOnePart | src/main/java/net/blay09/mods/bmc/integration/twitch/TwitchChatHandler.java:194 | a format without placeholders is one part |
| MessageFormat.ExpandPartExtends | src/main/java/net/blay09/mods/bmc/integration/twitch/TwitchChatHandler.java:197-225 | one part only appends to the text, and moves the badges (emotes) by the text so far exactly at `%u` (`%m`) |
| MessageFormat.ExpandAppend | src/main/java/net/blay09/mods/bmc/integration/twitch/TwitchChatHandler.java:196-226 | the loop over `a + b` is the loop over `a`, then over `b` from its result |
| MessageFormat.ExpandFromRenders | src/main/java/net/blay09/mods/bmc/integration/twitch/TwitchChatHandler.java:196-226 | the loop appends exactly the reference rendering (`%c` the channel, `%u` the user text, `%m` the message, literals themselves) |
| MessageFormat.ExpandRenders | src/main/java/net/blay09/mods/bmc/integration/twitch/TwitchChatHandler.java:193-227 | with no literal starting with `%`, the text is the format's parts in order with `%c`, `%u` and `%m` substituted |
| MessageFormat.PlainFormatUnchanged | src/main/java/net/blay09/mods/bmc/integration/twitch/TwitchChatHandler.java:219-225 | a format without placeholders comes out as itself, and no image moves |
| MessageFormat.PercentLiteralIgnored | src/main/java/net/blay09/mods/bmc/integration/twitch/TwitchChatHandler.java:197-218 | a literal that starts with `%` but is no placeholder falls through the switch, and dropping it changes nothing |
| MessageFormat.ExpandFromExtends | src/main/java/net/blay09/mods/bmc/integration/twitch/TwitchChatHandler.java:196-226 | later parts only append; without `%u` (`%m`) they do not move the badges (emotes) |
| MessageFormat.OnlyAtSides | src/main/java/net/blay09/mods/bmc/integration/twitch/TwitchChatHandler.java:205-217 | with one `%u` (`%m`), the parts before and after it hold none |
| MessageFormat.SlotOf | src/main/java/net/blay09/mods/bmc/integration/twitch/TwitchChatHandler.java:209-216 | a text that starts with `pre + x` holds `x` right after `pre` |
| MessageFormat.SplitAt | src/main/java/net/blay09/mods/bmc/integration/twitch/TwitchChatHandler.java:196-226 | the loop is the parts before `k`, part `k`, then the parts after it |
| MessageFormat.UserPlacement | src/main/java/net/blay09/mods/bmc/integration/twitch/TwitchChatHandler.java:205-211 | with one `%u`, the badges move by the length of the text before it, and the user text sits exactly there in the output |
| MessageFormat.MessagePlacement | src/main/java/net/blay09/mods/bmc/integration/twitch/TwitchChatHandler.java:212-217 | with one `%m`, the emotes move by the length of the text before it, and the message sits exactly there in the output |
| TwitchChat.ShiftedTwice | src/main/java/net/blay09/mods/bmc/integration/twitch/TwitchChatHandler.java:206-214 | moving images by `a` and then by `b` is moving them by `a + b` |
| TwitchChat.NameColor | src/main/java/net/blay09/mods/bmc/integration/twitch/TwitchChatHandler.java:114-119 | green and blue are bytes, red is the signed upper part of the `int`, and no colour gives grey 128,128,128 |
| TwitchChat.NameColorRoundTrip | src/main/java/net/blay09/mods/bmc/integration/twitch/TwitchChatHandler.java:115-116 | a 24-bit colour is split into three bytes that put it back together |
| TwitchChat.Compose | src/main/java/net/blay09/mods/bmc/integration/twitch/TwitchChatHandler.java:51-119 | no line when the tag does not read; otherwise a managed line with one image per resolved badge and per emote image of the splice |
| TwitchChat.SliceOfSlice | src/main/java/net/blay09/mods/bmc/integration/twitch/TwitchChatHandler.java:205-217 | a slice of text placed at `off` is the matching slice of the whole text |
| TwitchChat.SpacesSlice | src/main/java/net/blay09/mods/bmc/integration/twitch/TwitchChatHandler.java:209 | every slice of the badge spaces is spaces |
| TwitchChat.ShiftedOnSpaces | src/main/java/net/blay09/mods/bmc/integration/twitch/TwitchChatHandler.java:206-214 | images over spaces of a piece, moved by the piece's position in the text, are over spaces of the text |
| TwitchChat.EmoteImagesOnSpaces | src/main/java/net/blay09/mods/bmc/integration/twitch/TwitchChatHandler.java:76 | the emote images of a splice cover spaces of the spliced text |
| TwitchChat.BadgeImagesOnSpaces | src/main/java/net/blay09/mods/bmc/integration/twitch/TwitchChatHandler.java:100-102 | abutting badge images cover spaces of a text that starts with the row's spaces |
| TwitchChat.UserTextStartsWithSpaces | src/main/java/net/blay09/mods/bmc/integration/twitch/TwitchChatHandler.java:209 | the `%u` text starts with `badgeOffset` spaces |
| TwitchChat.LineParts | src/main/java/net/blay09/mods/bmc/integration/twitch/TwitchChatHandler.java:105-113 | the line's text is the formatted text, and its images are the moved badges followed by the moved emotes |
| TwitchChat.BadgesOnSpaces | src/main/java/net/blay09/mods/bmc/integration/twitch/TwitchChatHandler.java:205-211 | with one `%u`, every badge image of the line covers spaces of its text |
| TwitchChat.EmotesOnSpaces | src/main/java/net/blay09/mods/bmc/integration/twitch/TwitchChatHandler.java:212-217 | with one `%m`, the line has one emote image per spliced image, and each covers spaces of its text |
| TwitchChat.ImagesLandOnSpaces | src/main/java/net/blay09/mods/bmc/integration/twitch/TwitchChatHandler.java:105-113 | with one `%u` and one `%m`, a posted line has one image per resolved badge and per occurrence read from the tag, each over a run of spaces of the text |
| TwitchChat.WithStrikethrough | src/main/java/net/blay09/mods/bmc/integration/twitch/TwitchChatHandler.java:166-171 | the lines named are struck through, with their text and images kept; the others are unchanged, and no line is added or lost |
| TwitchChat.WithDeletedNotice | src/main/java/net/blay09/mods/bmc/integration/twitch/TwitchChatHandler.java:172-180 | the lines named read `username: <message deleted>` in italics and keep their images; the others are unchanged, and no line is added or lost |
| TwitchChat.StrikethroughIdempotent | src/main/java/net/blay09/mods/bmc/integration/twitch/TwitchChatHandler.java:166-171 | striking through twice is striking through once |
| TwitchChat.DeletedNoticeIdempotent | src/main/java/net/blay09/mods/bmc/integration/twitch/TwitchChatHandler.java:172-180 | replacing twice is replacing once |
| TwitchChat.StrikeOneMore | src/main/java/net/blay09/mods/bmc/integration/twitch/TwitchChatHandler.java:167-169 | striking one more line is striking the larger set |
| TwitchChat.ReplaceOneMore | src/main/java/net/blay09/mods/bmc/integration/twitch/TwitchChatHandler.java:173-178 | replacing one more line is replacing the larger set |
| TwitchChat.LoggedByAdd | src/main/java/net/blay09/mods/bmc/integration/twitch/TwitchChatHandler.java:187 | the lines logged by one more nick are those logged before plus that nick's |
| TwitchChat.TwitchChatHandler.constructor | src/main/java/net/blay09/mods/bmc/integration/twitch/TwitchChatHandler.java:31-35 | no active channels, an empty log, no lines, empty image lists |
| TwitchChat.TwitchChatHandler.IsMultiMode | src/main/java/net/blay09/mods/bmc/integration/twitch/TwitchChatHandler.java:37-39 | multi mode is more than one active channel, and since the handler never adds one it never holds |
| TwitchChat.TwitchChatHandler.MoveImages | src/main/java/net/blay09/mods/bmc/integration/twitch/TwitchChatHandler.java:206-208 | each image's index is increased by `d`, and nothing else changes |
| TwitchChat.TwitchChatHandler.FormatComponent | src/main/java/net/blay09/mods/bmc/integration/twitch/TwitchChatHandler.java:193-228 | the text is that of `Expand` over the split format; the badges move by the text length at `%u`, the emotes at `%m`, and by nothing else |
| TwitchChat.TwitchChatHandler.OnTwitchChat | src/main/java/net/blay09/mods/bmc/integration/twitch/TwitchChatHandler.java:51-128 | `thrown` exactly when the emote loops throw, and then no line is posted or logged; otherwise one new shown line equal to `Compose`, logged under the nick, whose images are `tmpBadges + tmpEmotes` |
| TwitchChat.TwitchChatHandler.ComposeLine | src/main/java/net/blay09/mods/bmc/integration/twitch/TwitchChatHandler.java:51-119 | the line built is `Compose`: none when the emote loops throw, leaving the badge images alone; otherwise the formatted text, the badge then the emote images, the name colour |
| TwitchChat.TwitchChatHandler.PostLine | src/main/java/net/blay09/mods/bmc/integration/twitch/TwitchChatHandler.java:106-107 | the line gets a new id and is shown, and its id is appended to the nick's log; the log is never pruned |
| TwitchChat.TwitchChatHandler.OnChatMessage | src/main/java/net/blay09/mods/bmc/integration/twitch/TwitchChatHandler.java:37-44 | the multi format is used exactly when more than one channel is active, otherwise the single one; since the channel list stays empty the line is always built from the single format; a throw posts nothing |
| TwitchChat.TwitchChatHandler.OnActionMessage | src/main/java/net/blay09/mods/bmc/integration/twitch/TwitchChatHandler.java:37-49 | the same for the `/me` formats: always the single one; a throw posts nothing |
| TwitchChat.TwitchChatHandler.RemoveLines | src/main/java/net/blay09/mods/bmc/integration/twitch/TwitchChatHandler.java:161-163 | exactly the ids given stop being shown |
| TwitchChat.TwitchChatHandler.StrikeLines | src/main/java/net/blay09/mods/bmc/integration/twitch/TwitchChatHandler.java:167-169 | exactly the lines given are struck through |
| TwitchChat.TwitchChatHandler.ReplaceLines | src/main/java/net/blay09/mods/bmc/integration/twitch/TwitchChatHandler.java:173-178 | exactly the lines given get the italic grey notice `username: <message deleted>` |
| TwitchChat.TwitchChatHandler.OnTimeout | src/main/java/net/blay09/mods/bmc/integration/twitch/TwitchChatHandler.java:156-183 | an unknown channel changes nothing; HIDE hides every logged line of the user, STRIKETHROUGH strikes them, REPLACE replaces their text, and nothing else changes |
| TwitchChat.TwitchChatHandler.OnClearChat | src/main/java/net/blay09/mods/bmc/integration/twitch/TwitchChatHandler.java:185-191 | every logged line of every user stops being shown, and only those |
| ViewRegistry.OrderExists | src/main/java/net/blay09/mods/chattweaks/ChatViewManager.java:105 | every key set has an iteration order |
| ViewRegistry.OrderSize | src/main/java/net/blay09/mods/chattweaks/ChatViewManager.java:105 | `keySet().toArray` has as many names as there are keys |
| ViewRegistry.ViewsOf | src/main/java/net/blay09/mods/chattweaks/ChatViewManager.java:147 | `views.values()` lists the view of each name, in iteration order |
| ViewRegistry.TabNames | src/main/java/net/blay09/mods/chattweaks/ChatViewManager.java:106 | exactly the names whose view has the Chat style, with no duplicates |
| ViewRegistry.TabNamesAreChatNames | src/main/java/net/blay09/mods/chattweaks/ChatViewManager.java:106 | when each view is stored under its own name, the Chat-style keys are the names of the Chat-style views, in order |
| ViewRegistry.NextIndex | src/main/java/net/blay09/mods/chattweaks/ChatViewManager.java:133-140 | the position is in range, and it is 0 for no view or an unknown name |
| ViewRegistry.NextFollowsName | src/main/java/net/blay09/mods/chattweaks/ChatViewManager.java:135-140 | for a known name, the pick comes right after its first occurrence, or is 0 when that is the last position |
| ViewRegistry.NextOfDistinct | src/main/java/net/blay09/mods/chattweaks/ChatViewManager.java:133-141 | among distinct names the successor of `k` is `k + 1`, and the last wraps to the first |
| ViewRegistry.Visit | src/main/java/net/blay09/mods/chattweaks/ChatViewManager.java:128-142 | repeated next-view picks stay in range |
| ViewRegistry.VisitInOrder | src/main/java/net/blay09/mods/chattweaks/ChatViewManager.java:128-142 | repeated picks from no view visit the names in order |
| ViewRegistry.VisitNext | src/main/java/net/blay09/mods/chattweaks/ChatViewManager.java:137-140 | one pick moves from the name at `j` to the one at `j + 1` |
| ViewRegistry.VisitWraps | src/main/java/net/blay09/mods/chattweaks/ChatViewManager.java:138-140 | after the last name the walk starts over from the first |
| ViewRegistry.CandidateNameInjective | src/main/java/net/blay09/mods/chattweaks/ChatViewManager.java:186-191 | different attempts try different names |
| ViewRegistry.CandidatesBelowSize | src/main/java/net/blay09/mods/chattweaks/ChatViewManager.java:186-191 | the first `n` attempts try `n` different names |
| ViewRegistry.FreeCandidateExists | src/main/java/net/blay09/mods/chattweaks/ChatViewManager.java:189 | within as many attempts as there are taken names plus one, some name is free, so the loop ends |
| ViewRegistry.SubsetSize | src/main/java/net/blay09/mods/chattweaks/ChatViewManager.java:189 | names all taken are at most as many as the taken ones |
| ViewRegistry.RouteViews | src/main/java/net/blay09/mods/chattweaks/ChatViewManager.java:146-158 | the loop's result and exclusive view are exactly `Route` over the views in iteration order |
| ViewRegistry.RouteNext | src/main/java/net/blay09/mods/chattweaks/ChatViewManager.java:147-156 | one view of the loop: an accepting exclusive one ends it alone, another accepting one is collected, others are passed |
| ViewRegistry.Matching | src/main/java/net/blay09/mods/chattweaks/ChatViewManager.java:148 | exactly the views that show the channel and accept the text |
| ViewRegistry.FirstExclusive | src/main/java/net/blay09/mods/chattweaks/ChatViewManager.java:149 | the position of the first exclusive view, with none before it, or -1 when there is none |
| ViewRegistry.RouteStep | src/main/java/net/blay09/mods/chattweaks/ChatViewManager.java:147-156 | one view: what it adds to the route and to the accepting views |
| ViewRegistry.FirstExclusiveCons | src/main/java/net/blay09/mods/chattweaks/ChatViewManager.java:149 | a non-exclusive view in front moves the first exclusive position by one |
| ViewRegistry.RouteWithoutExclusive | src/main/java/net/blay09/mods/chattweaks/ChatViewManager.java:155 | with no accepting exclusive view, all accepting views are collected in order and no exclusive view is set |
| ViewRegistry.RouteWithExclusive | src/main/java/net/blay09/mods/chattweaks/ChatViewManager.java:149-154 | with an accepting exclusive view, the result is the first one alone, and it becomes the exclusive view |
| ViewRegistry.RouteSpec | src/main/java/net/blay09/mods/chattweaks/ChatViewManager.java:144-159 | every view returned shows the channel and accepts the text; the result is the first accepting exclusive view alone, earlier matches discarded, or else all accepting views in iteration order |
| ViewRegistry.CreateDefaultView | src/main/java/net/blay09/mods/chattweaks/ChatViewManager.java:33-40 | a new `*` view with the main, interaction, system and death channels, not exclusive, Chat style |
| ViewRegistry.CreateSystemView | src/main/java/net/blay09/mods/chattweaks/ChatViewManager.java:42-48 | a new `system` view with the system channel, exclusive, Side style |
| ViewRegistry.CreateInteractionView | src/main/java/net/blay09/mods/chattweaks/ChatViewManager.java:50-56 | a new `interaction` view with the interaction channel, exclusive, Bottom style |
| ViewRegistry.CreateDefaults | src/main/java/net/blay09/mods/chattweaks/ChatViewManager.java:58-64 | the three new default views, in that order |
| ViewRegistry.ChatViewManager.ChosenRegistered | src/main/java/net/blay09/mods/chattweaks/ChatViewManager.java:129-141 | with fresh caches, every name getNextChatView may pick is registered, once, and some name exists when a view does |
| ViewRegistry.ChatViewManager.constructor | src/main/java/net/blay09/mods/chattweaks/ChatViewManager.java:30-31 | an empty registry with empty caches, no active view, no reserved names |
| ViewRegistry.ChatViewManager.Reorder | src/main/java/net/blay09/mods/chattweaks/ChatViewManager.java:105 | the iteration order lists each key once |
| ViewRegistry.ChatViewManager.UpdateNameCache | src/main/java/net/blay09/mods/chattweaks/ChatViewManager.java:104-107 | `viewNames` is the keys in iteration order, and `tabViewNames` the names of the Chat-style views in `values()` order |
| ViewRegistry.ChatViewManager.AddChatView | src/main/java/net/blay09/mods/chattweaks/ChatViewManager.java:109-115 | a taken name is refused with nothing changed; otherwise the view is stored under its name and the caches match |
| ViewRegistry.ChatViewManager.SetActiveView | src/main/java/net/blay09/mods/chattweaks/ChatViewManager.java:161-165 | the view becomes active and is marked read |
| ViewRegistry.ChatViewManager.NextChatView | src/main/java/net/blay09/mods/chattweaks/ChatViewManager.java:128-142 | the view after the given one in the chosen array, cyclically, or the first; with fresh caches it is a registered view |
| ViewRegistry.ChatViewManager.RemoveChatView | src/main/java/net/blay09/mods/chattweaks/ChatViewManager.java:117-126 | the name is gone and the registry is never empty: a new default `*` view is the only one when nothing was left; the caches match; a removed active view is succeeded by the first chosen one, marked read; otherwise the active view stays; no other view's unread flag changes, and none at all when the active view stays |
| ViewRegistry.ChatViewManager.DropActive | src/main/java/net/blay09/mods/chattweaks/ChatViewManager.java:118-125 | removing the active view leaves the registry as any removal does, makes the first chosen view active and read, and changes no other view's unread flag |
| ViewRegistry.ChatViewManager.ActivateAfter | src/main/java/net/blay09/mods/chattweaks/ChatViewManager.java:123-125 | the removed name is not found, so the first chosen view becomes active, marked read, and nothing in the registry changes; only that view's unread flag may change |
| ViewRegistry.ChatViewManager.DropView | src/main/java/net/blay09/mods/chattweaks/ChatViewManager.java:118-122 | the name is removed, `*` is put in when nothing is left, and the caches are rebuilt |
| ViewRegistry.ChatViewManager.KeepRest | src/main/java/net/blay09/mods/chattweaks/ChatViewManager.java:118-122 | when something is left, the registry is exactly what is left, with matching caches |
| ViewRegistry.ChatViewManager.ResetToDefault | src/main/java/net/blay09/mods/chattweaks/ChatViewManager.java:119-122 | when nothing is left, the registry holds only a new default `*` view, with matching caches |
| ViewRegistry.ChatViewManager.NextAfterRemoval | src/main/java/net/blay09/mods/chattweaks/ChatViewManager.java:133-140 | after a removal the removed name is not found, or is the only one, so the next pick is position 0 |
| ViewRegistry.ChatViewManager.FindChatViews | src/main/java/net/blay09/mods/chattweaks/ChatViewManager.java:144-159 | the views returned and the exclusive view set are `Route` over the registered views in iteration order |
| ViewRegistry.ChatViewManager.GetFreeChatViewName | src/main/java/net/blay09/mods/chattweaks/ChatViewManager.java:184-195 | the first of `New View`, `New View (1)`, ... that is neither a key nor reserved; it is appended to the reserved names and the views are untouched |
| ViewRegistry.ChatViewManager.RemoveAllChatViews | src/main/java/net/blay09/mods/chattweaks/ChatViewManager.java:197-202 | no views, empty caches, no reserved names |
| ViewRegistry.ChatViewManager.RenameChatView | src/main/java/net/blay09/mods/chattweaks/ChatViewManager.java:204-208 | the old key is removed and the view renamed; a free name re-adds it with matching caches; a taken name is refused after the old entry is already gone |
| ViewRegistry.ChatViewManager.GetOrCreateChatView | src/main/java/net/blay09/mods/chattweaks/ChatViewManager.java:180-182 | an existing view is returned and the map, the iteration order and the caches stay as they were; otherwise a new view is put in; the caches are not refreshed |
| ViewRegistry.ChatViewManager.Load | src/main/java/net/blay09/mods/chattweaks/ChatViewManager.java:66-85 | load succeeds exactly when the names read are distinct; it then holds exactly the views read, under their names, or the three defaults when none were read, and the first chosen view is active and read; a repeated name stops it with exactly the registry `ViewsBeforeDuplicate` builds, each name holding the first view read under it, with fresh caches and the active view unchanged; the reserved names are cleared; no view's unread flag changes except the new active view's |
| ViewRegistry.ChatViewManager.Fill | src/main/java/net/blay09/mods/chattweaks/ChatViewManager.java:72-84 | on a cleared registry: the same two outcomes as `Load`, either exactly the registry built before a repeated name, or the finished load |
| ViewRegistry.ChatViewManager.FinishLoad | src/main/java/net/blay09/mods/chattweaks/ChatViewManager.java:79-84 | an empty registry gets the three defaults, otherwise the registry keeps exactly the views read; then the first chosen view becomes active, and no other view's unread flag changes; the names read stay as they were |
| ViewRegistry.ChatViewManager.ActivateDefaults | src/main/java/net/blay09/mods/chattweaks/ChatViewManager.java:79-84 | the three default views are put in, and the first chosen one becomes active |
| ViewRegistry.ChatViewManager.ActivateLoaded | src/main/java/net/blay09/mods/chattweaks/ChatViewManager.java:84 | with views loaded, the first chosen one becomes active and the registry is unchanged; no other view's unread flag changes |
| ViewRegistry.ChatViewManager.AddLoaded | src/main/java/net/blay09/mods/chattweaks/ChatViewManager.java:72-74 | each view read is added in turn; it succeeds exactly when the names are distinct, the keys are then the names read, and every stored view is one of those read; on a repeated name the registry is exactly `ViewsBeforeDuplicate` of the views read, with fresh caches |
| ViewRegistry.ChatViewManager.AddNext | src/main/java/net/blay09/mods/chattweaks/ChatViewManager.java:72-74 | a view read whose name is new is put under that name, extending the distinct names, and the rest of the load is what remains to build; a taken name leaves the registry as it was, shows the names read are not distinct, and the registry is then the one built before the repeat |
| ViewRegistry.ChatViewManager.AddDefaults | src/main/java/net/blay09/mods/chattweaks/ChatViewManager.java:79-83 | an empty registry gets exactly `*`, `system` and `interaction`, each new and as created |
| ViewRegistry.ChatViewManager.AddExclusiveDefaults | src/main/java/net/blay09/mods/chattweaks/ChatViewManager.java:81-82 | the system and interaction views are added next to `*`, which stays |
| ViewRegistry.ChatViewManager.ActivateFirst | src/main/java/net/blay09/mods/chattweaks/ChatViewManager.java:84 | the first chosen view becomes active and is marked read |
| ViewRegistry.NamesExtend | src/main/java/net/blay09/mods/chattweaks/ChatViewManager.java:72-74 | each view added adds its name, and keeps the names distinct when that name is new |
| ViewRegistry.DuplicateName | src/main/java/net/blay09/mods/chattweaks/ChatViewManager.java:110-111 | a view whose name was already added makes the names read not distinct |
| ViewRegistry.ViewsBeforeDuplicateStep | src/main/java/net/blay09/mods/chattweaks/ChatViewManager.java:109-114 | a view whose name is new is put in and the load goes on; a taken name stops the load with the registry as it is |
| ViewRegistry.ViewsBeforeDuplicateKeeps | src/main/java/net/blay09/mods/chattweaks/ChatViewManager.java:110-111 | a view once put in stays under its name: a later view with that name is refused, never stored over it |
| ViewRegistry.FirstViewKept | src/main/java/net/blay09/mods/chattweaks/ChatViewManager.java:72-74 | a name that the load put in holds the first view read under that name |
| ViewRegistry.NamesOfNonEmpty | src/main/java/net/blay09/mods/chattweaks/ChatViewManager.java:79 | some view was read, so the registry is not empty |
| ViewRegistry.ChatViewManager.RemainsKept | src/main/java/net/blay09/mods/chattweaks/ChatViewManager.java:161-163 | changing the active view and the unread flags keeps the registry as the removal left it |
| ViewRegistry.ChatViewManager.DefaultsKept | src/main/java/net/blay09/mods/chattweaks/ChatViewManager.java:161-163 | changing the active view and the unread flags keeps the three default views |
| ChatViews.ChatView.constructor | src/main/java/net/blay09/mods/chattweaks/ChatViewManager.java:34 | a new view with the name, no channels, not exclusive, Chat style, nothing unread |
| ChatViews.ChatView.AddChannel | src/main/java/net/blay09/mods/chattweaks/ChatViewManager.java:35-38 | the channel is added to the view's channels |
| ChatViews.ChatView.SetMessageStyle | src/main/java/net/blay09/mods/chattweaks/ChatViewManager.java:45 | the style is set |
| ChatViews.ChatView.SetExclusive | src/main/java/net/blay09/mods/chattweaks/ChatViewManager.java:46 | the exclusive flag is set |

## Left out

- **File I/O.** The JSON file that `load` reads and `save` writes is not modelled, nor the swallowed exceptions (`ChatViewManager.java:67-78`, `87-102`). `Load` takes the views as read, in order.
- **`save`, `getActiveView`, `getViews` and `getChatView`.** These are plain field reads or I/O; they are not modelled.
- **Rendering and external calls.** These are not modelled: `refreshChat`, `BetterMinecraftChatAPI.addChatLine` and `removeChatLine`, and posting the line to the twitch channel's target channel (`addManagedChatLine`, `TwitchChatHandler.java:120-126`). The chat is modelled by the handler's own `lines` and `shown` fields.
- **`onWhisperMessage`.** Its body is empty.
- **`onSubscribe` and `onResubscribe`.** These build a notice string from the user name, with the months for `onResubscribe` and a `[channel]` prefix in multi mode. The line has no images and no log entry. They are not modelled.
- **External lookups.** `TwitchAPI.getEmoteById`, `TwitchBadge.getBadge` and `getSubscriberBadge` are maps from id or name to the image width in spaces.
- **Colour parsing.** `colorFromHex` is given as an input: the user's colour as an `int`.
- **Channel settings.** `TwitchIntegration.getTwitchChannel(channel).getDeletedMessages()` is the `mode` argument of `OnTimeout`, with `None` for an unknown channel.
- **View matching.** `ChatView.messageMatches` is an uninterpreted predicate argument.
- **Text formatting codes.** The length of `root.getFormattedText()` is modelled as the length of the plain text. Formatting codes and component styles other than strikethrough, italic and grey are not modelled.
- **`Split`.** Java's `split(",")` drops trailing empty pieces, and the model keeps them. The difference is harmless: an empty piece has no `-` and is skipped.
- **`Tokenize`.** The lookaround regex split of the format around `%[ucm]` is modelled as a tokenizer, not as regex semantics.
- **Exceptions of the emote loops.** A `NumberFormatException` from `Integer.parseInt` and a `StringIndexOutOfBoundsException` from `substring` are modelled as an outcome: `None` from `ReadTag`, `Splice` and `SpliceTag`, `thrown` from the methods. The exception object and its message are not modelled. `Integer.parseInt` is modelled with an optional `+` or `-`, the decimal digits that `Character.digit` reads (Unicode general category Nd in the Basic Multilingual Plane, after the Unicode 6.2 tables of Java 8), and the `int` overflow check. A surrogate code unit is never a digit, as in Java.
- **`ComposeLine`.** After a throw in the emote loops, the contents of `tmpEmotes` are not stated. The source leaves there the images added before the throw, and the next message clears them.
- **`OnTwitchChat`, `OnChatMessage` and `OnActionMessage`.** Through `Composable` they keep the preconditions of `ResolveBadges` and `FormatComponent` below, and they require the colour to be an `int`, as `colorFromHex` returns one.
- **`ResolveBadges`.** A `subscriber` badge with an empty channel makes `channel.substring(1)` throw; this is excluded by a precondition.
- `ResolveBadges`: the badge offset is an unbounded `nat`. The source's `badgeIndex` is a Java `int`, and `badgeIndex += image.getSpaces()` would wrap past 2^31-1; with the few badges of one message this does not arise.
- **`FormatComponent`.** An empty format, or a part that is a lone `%`, makes `charAt` throw; these are excluded by a precondition (`FormatHandled`).
- **`ImagesLandOnSpaces`.** It is stated for formats with exactly one `%u` and one `%m`. With two of either, the source moves the same images twice.
- **`SpliceOrdered`.** It is stated for ascending, disjoint ranges. The source visits ranges grouped by emote id, so for other tags only `SpliceImagesMarkSpaces` holds.
- **`NameColor`.** Red is `c >> 16` of a Java `int` and can be negative or above 255, as in the source. Only a 24-bit colour is proved to round-trip.
- **`OnClearChat`.** It ignores its channel argument, as the source does.
- **`IsMultiMode`.** It is `|activeChannels| > 1`, and its effect is stated in `OnChatMessage` and `OnActionMessage`. The handler never adds to `activeChannels` (`TwitchChatHandler.java:31`), and `Valid` keeps it empty. So multi mode never holds, and the multi formats are modelled but never used. Which channels were meant to fill the list is not evident from the source, so no corrected behaviour is modelled.
- **`Load`.** A duplicate name makes `addChatView` throw `IllegalArgumentException` out of `load`. The model returns the outcome `DuplicateView` instead. The registry keeps the views added before the repeated name, each name with the first view read under it, with fresh caches, and the active view is not changed, since `setActiveView` is never reached.
- **`AddChatView` and `RenameChatView`.** Their duplicate-name exception is also the outcome `DuplicateView`.
- **`NextChatView`.** It requires a non-empty chosen array; the source throws `ArrayIndexOutOfBoundsException` there.
- **`GetOrCreateChatView`.** The caches are left as they were; the source does not refresh them either.
- **`ChatView.constructor`.** `ChatView.java` is not part of this model. The defaults of a new view are taken to be: no channels, not exclusive, Chat style, nothing unread. The cited line is where the registry first calls the constructor.
- **HashMap iteration order.** It is some order of the keys, chosen arbitrarily whenever the key set changes. No particular hashing order is modelled.
- **Initial caches.** In the source, `viewNames` and `tabViewNames` are null until the first update; the model starts them empty.
- **`VisitWraps`.** Repetition is proved for one full cycle, which gives the period by induction. The general periodicity lemma is not stated.
