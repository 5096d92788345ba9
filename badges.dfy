/**
 * The badge half of TwitchChatHandler.onTwitchChat: each Twitch badge tag
 * `name/version` is cut to its name, looked up, and every badge that resolves
 * gets an image whose position is the number of spaces taken by the badges
 * before it.
 *
 * The lookups TwitchBadge.getBadge and TwitchBadge.getSubscriberBadge are
 * maps from badge name, or channel name, to the width in spaces of the
 * badge's image (`IChatImage.getSpaces()`).
 */
module Badges {
  import opened Strings
  import opened Options

  datatype BadgeLookups = BadgeLookups(badges: map<string, nat>, subscriber: map<string, nat>)

  /** A badge image: its position in the line, the badge name and its width in spaces. */
  datatype BadgeImage = BadgeImage(index: nat, name: string, spaces: nat)

  /** The badge name: the tag cut at its first `/`, or all of it when it has none. */
  function BadgeName(raw: string): (name: string)
    ensures '/' !in name
    ensures |name| <= |raw| && name == raw[..|name|]
    ensures '/' in raw ==> |name| < |raw| && raw[|name|] == '/'
    ensures '/' !in raw ==> name == raw
  {
    var slash := IndexOf(raw, '/');
    if slash != -1 then raw[..slash] else raw
  }

  /** `channel.substring(1)` is only taken for a subscriber badge, and needs a non-empty channel. */
  predicate ChannelFitsBadges(raws: seq<string>, channel: string) {
    forall k :: 0 <= k < |raws| ==> BadgeName(raws[k]) == "subscriber" ==> |channel| > 0
  }

  /**
   * The width of the badge `name`: the subscriber badge is looked up by the
   * channel name without its first character (the `#`), every other badge by
   * its name; None for an unknown badge. (With an empty channel the source
   * throws; `ResolveBadges` excludes that case, here it reads as unknown.)
   */
  function LookupBadge(name: string, channel: string, lookups: BadgeLookups): Option<nat> {
    if name == "subscriber" then
      if |channel| > 0 && channel[1..] in lookups.subscriber then Some(lookups.subscriber[channel[1..]]) else None
    else
      if name in lookups.badges then Some(lookups.badges[name]) else None
  }

  /**
   * A badge is known exactly when its table holds it: the subscriber badge
   * the per-channel table under the channel without its first character,
   * any other badge the global table under its name.
   */
  lemma LookupBadgeKnown(name: string, channel: string, lookups: BadgeLookups)
    ensures var w := LookupBadge(name, channel, lookups);
      && (name == "subscriber" ==> (w.Some? <==> |channel| > 0 && channel[1..] in lookups.subscriber))
      && (name == "subscriber" && w.Some? ==> w.value == lookups.subscriber[channel[1..]])
      && (name != "subscriber" ==> (w.Some? <==> name in lookups.badges))
      && (name != "subscriber" && w.Some? ==> w.value == lookups.badges[name])
  {
  }

  /** The badge images (`tmpBadges`) and the offset after them (`badgeIndex`). */
  datatype BadgeRow = BadgeRow(images: seq<BadgeImage>, end: nat)

  /**
   * The badges `raws` placed one after the other, continuing a row whose
   * images so far are `acc` and whose next free offset is `offset`.
   */
  function Place(acc: seq<BadgeImage>, offset: nat, raws: seq<string>, channel: string, lookups: BadgeLookups): BadgeRow
    decreases raws
  {
    if raws == [] then BadgeRow(acc, offset)
    else
      var name := BadgeName(raws[0]);
      match LookupBadge(name, channel, lookups)
      case None => Place(acc, offset, raws[1..], channel, lookups)
      case Some(w) => Place(acc + [BadgeImage(offset, name, w)], offset + w, raws[1..], channel, lookups)
  }

  /** One step of that placement, at the badge `raws[i]`. */
  lemma PlaceNext(acc: seq<BadgeImage>, offset: nat, raws: seq<string>, i: nat, channel: string, lookups: BadgeLookups)
    requires i < |raws|
    ensures Place(acc, offset, raws[i..], channel, lookups) ==
      match LookupBadge(BadgeName(raws[i]), channel, lookups)
      case None => Place(acc, offset, raws[i + 1..], channel, lookups)
      case Some(w) => Place(acc + [BadgeImage(offset, BadgeName(raws[i]), w)], offset + w, raws[i + 1..], channel, lookups)
  {
    assert raws[i..][0] == raws[i] && raws[i..][1..] == raws[i + 1..];
  }

  /**
   * The badge loop of onTwitchChat (TwitchChatHandler.java:86-104): the badge
   * images (`tmpBadges`) and the final `badgeIndex`.
   */
  method ResolveBadges(raws: seq<string>, channel: string, lookups: BadgeLookups)
      returns (images: seq<BadgeImage>, badgeIndex: nat)
    requires ChannelFitsBadges(raws, channel)
    ensures BadgeRow(images, badgeIndex) == Place([], 0, raws, channel, lookups)
  {
    images := [];
    badgeIndex := 0;
    ghost var goal := Place([], 0, raws, channel, lookups);
    var i := 0;
    while i < |raws|
      invariant 0 <= i <= |raws|
      invariant Place(images, badgeIndex, raws[i..], channel, lookups) == goal
    {
      PlaceNext(images, badgeIndex, raws, i, channel, lookups);
      var badgeName := raws[i];
      var slash := IndexOf(badgeName, '/');
      if slash != -1 {
        badgeName := badgeName[..slash];
      }
      assert badgeName == BadgeName(raws[i]);
      var badge: Option<nat>;
      if badgeName == "subscriber" {
        assert |channel| > 0 by {
          assert BadgeName(raws[i]) == "subscriber";
        }
        badge := if channel[1..] in lookups.subscriber then Some(lookups.subscriber[channel[1..]]) else None;
      } else {
        badge := if badgeName in lookups.badges then Some(lookups.badges[badgeName]) else None;
      }
      assert badge == LookupBadge(BadgeName(raws[i]), channel, lookups);
      if badge.Some? {
        var image := BadgeImage(badgeIndex, badgeName, badge.value);
        badgeIndex := badgeIndex + image.spaces;
        images := images + [image];
      }
      i := i + 1;
    }
    assert raws[i..] == [];
  }

  // ---------------------------------------------------------------------
  // What the row looks like
  // ---------------------------------------------------------------------

  /** The spaces taken by a list of badge images. */
  function SpaceSum(images: seq<BadgeImage>): nat {
    if images == [] then 0 else SpaceSum(images[..|images| - 1]) + images[|images| - 1].spaces
  }

  /** Every image starts where the earlier ones end, and `end` is where the last one ends. */
  predicate Tiled(images: seq<BadgeImage>, end: nat) {
    && end == SpaceSum(images)
    && forall k :: 0 <= k < |images| ==> images[k].index == SpaceSum(images[..k])
  }

  /** Reference definition: the resolved badges, as (name, width) pairs in tag order; unknown ones dropped. */
  function Resolved(raws: seq<string>, channel: string, lookups: BadgeLookups): seq<(string, nat)> {
    if raws == [] then []
    else
      var name := BadgeName(raws[0]);
      match LookupBadge(name, channel, lookups)
      case None => Resolved(raws[1..], channel, lookups)
      case Some(w) => [(name, w)] + Resolved(raws[1..], channel, lookups)
  }

  predicate Describes(images: seq<BadgeImage>, resolved: seq<(string, nat)>) {
    |images| == |resolved| &&
    forall k :: 0 <= k < |images| ==> images[k].name == resolved[k].0 && images[k].spaces == resolved[k].1
  }

  lemma TiledAppend(acc: seq<BadgeImage>, offset: nat, name: string, w: nat)
    requires Tiled(acc, offset)
    ensures Tiled(acc + [BadgeImage(offset, name, w)], offset + w)
  {
    var row := acc + [BadgeImage(offset, name, w)];
    assert row[..|row| - 1] == acc;
    forall k | 0 <= k < |row| ensures row[k].index == SpaceSum(row[..k]) {
      if k < |acc| {
        assert row[..k] == acc[..k];
      } else {
        assert row[..k] == acc;
      }
    }
  }

  /** One badge of the tag: what it adds to the row and to the resolved list. */
  lemma PlaceStep(acc: seq<BadgeImage>, offset: nat, raws: seq<string>, channel: string, lookups: BadgeLookups)
    requires raws != []
    ensures var name := BadgeName(raws[0]);
      match LookupBadge(name, channel, lookups)
      case None =>
        && Place(acc, offset, raws, channel, lookups) == Place(acc, offset, raws[1..], channel, lookups)
        && Resolved(raws, channel, lookups) == Resolved(raws[1..], channel, lookups)
      case Some(w) =>
        && Place(acc, offset, raws, channel, lookups)
           == Place(acc + [BadgeImage(offset, name, w)], offset + w, raws[1..], channel, lookups)
        && Resolved(raws, channel, lookups) == [(name, w)] + Resolved(raws[1..], channel, lookups)
  {
  }

  lemma {:induction false} PlaceTiled(acc: seq<BadgeImage>, offset: nat, raws: seq<string>,
                                      channel: string, lookups: BadgeLookups)
    requires Tiled(acc, offset)
    decreases raws
    ensures Tiled(Place(acc, offset, raws, channel, lookups).images, Place(acc, offset, raws, channel, lookups).end)
  {
    if raws != [] {
      var name := BadgeName(raws[0]);
      PlaceStep(acc, offset, raws, channel, lookups);
      match LookupBadge(name, channel, lookups)
      case None =>
        PlaceTiled(acc, offset, raws[1..], channel, lookups);
      case Some(w) =>
        TiledAppend(acc, offset, name, w);
        PlaceTiled(acc + [BadgeImage(offset, name, w)], offset + w, raws[1..], channel, lookups);
    }
  }

  /** A row that starts with `acc + [img]` and then describes `rest` starts with `acc` and then describes `img` and `rest`. */
  lemma DescribesCons(images: seq<BadgeImage>, acc: seq<BadgeImage>, img: BadgeImage, rest: seq<(string, nat)>)
    requires |acc| + 1 <= |images| && images[..|acc| + 1] == acc + [img]
    requires Describes(images[|acc| + 1..], rest)
    ensures images[..|acc|] == acc
    ensures Describes(images[|acc|..], [(img.name, img.spaces)] + rest)
  {
    assert images[..|acc|] == images[..|acc| + 1][..|acc|];
    var tail := images[|acc|..];
    assert tail[0] == images[..|acc| + 1][|acc|];
    assert tail[1..] == images[|acc| + 1..];
  }

  lemma {:induction false} PlaceDescribes(acc: seq<BadgeImage>, offset: nat, raws: seq<string>,
                                          channel: string, lookups: BadgeLookups)
    decreases raws
    ensures var row := Place(acc, offset, raws, channel, lookups);
      |acc| <= |row.images| && row.images[..|acc|] == acc &&
      Describes(row.images[|acc|..], Resolved(raws, channel, lookups))
  {
    if raws == [] {
      assert acc[|acc|..] == [];
    } else {
      var name := BadgeName(raws[0]);
      PlaceStep(acc, offset, raws, channel, lookups);
      match LookupBadge(name, channel, lookups)
      case None =>
        PlaceDescribes(acc, offset, raws[1..], channel, lookups);
      case Some(w) =>
        var img := BadgeImage(offset, name, w);
        PlaceDescribes(acc + [img], offset + w, raws[1..], channel, lookups);
        var row := Place(acc + [img], offset + w, raws[1..], channel, lookups);
        DescribesCons(row.images, acc, img, Resolved(raws[1..], channel, lookups));
    }
  }

  /**
   * The badge row of a message: one image per resolved badge, in tag order,
   * each placed at the sum of the spaces of the badges before it, and the
   * final `badgeIndex` is the sum of all their spaces.
   */
  lemma BadgeRowTiled(raws: seq<string>, channel: string, lookups: BadgeLookups)
    ensures var row := Place([], 0, raws, channel, lookups);
      && Describes(row.images, Resolved(raws, channel, lookups))
      && row.end == SpaceSum(row.images)
      && forall k :: 0 <= k < |row.images| ==> row.images[k].index == SpaceSum(row.images[..k])
  {
    PlaceTiled([], 0, raws, channel, lookups);
    PlaceDescribes([], 0, raws, channel, lookups);
    var row := Place([], 0, raws, channel, lookups);
    assert row.images[0..] == row.images;
  }

  /** In a tiled row, each image ends where the spaces of it and the images before it end. */
  lemma TiledEnds(images: seq<BadgeImage>, end: nat)
    requires Tiled(images, end)
    ensures forall k :: 0 <= k < |images| ==> images[k].index + images[k].spaces == SpaceSum(images[..k + 1]) <= end
  {
    forall k | 0 <= k < |images|
      ensures images[k].index + images[k].spaces == SpaceSum(images[..k + 1]) <= end
    {
      var pre := images[..k + 1];
      assert pre[..|pre| - 1] == images[..k] && pre[|pre| - 1] == images[k];
      SpaceSumPrefix(images, k + 1);
    }
  }

  /** Consecutive images abut, and all of them lie before `end`. */
  predicate Abutting(row: BadgeRow) {
    && (forall k :: 0 <= k < |row.images| - 1 ==> row.images[k].index + row.images[k].spaces == row.images[k + 1].index)
    && (forall k :: 0 <= k < |row.images| ==> row.images[k].index + row.images[k].spaces <= row.end)
  }

  lemma AbuttingEnds(row: BadgeRow, k: nat)
    requires Abutting(row) && k < |row.images|
    ensures row.images[k].index + row.images[k].spaces <= row.end
  {
  }

  /** Consecutive badge images abut, and all of them lie before `badgeIndex`. */
  lemma BadgesAbut(raws: seq<string>, channel: string, lookups: BadgeLookups)
    ensures Abutting(Place([], 0, raws, channel, lookups))
  {
    PlaceTiled([], 0, raws, channel, lookups);
    var row := Place([], 0, raws, channel, lookups);
    TiledEnds(row.images, row.end);
  }

  lemma {:induction false} SpaceSumPrefix(images: seq<BadgeImage>, n: nat)
    requires n <= |images|
    ensures SpaceSum(images[..n]) <= SpaceSum(images)
    decreases |images|
  {
    if n < |images| {
      assert images[..n] == images[..|images| - 1][..n];
      SpaceSumPrefix(images[..|images| - 1], n);
    } else {
      assert images[..n] == images;
    }
  }

  lemma {:induction false} ResolvedAppend(a: seq<string>, b: seq<string>, channel: string, lookups: BadgeLookups)
    ensures Resolved(a + b, channel, lookups) == Resolved(a, channel, lookups) + Resolved(b, channel, lookups)
  {
    if a == [] {
      assert a + b == b;
    } else {
      assert (a + b)[0] == a[0] && (a + b)[1..] == a[1..] + b;
      ResolvedAppend(a[1..], b, channel, lookups);
    }
  }

  lemma UnknownResolvesToNothing(raw: string, channel: string, lookups: BadgeLookups)
    requires LookupBadge(BadgeName(raw), channel, lookups) == None
    ensures Resolved([raw], channel, lookups) == []
  {
    assert [raw][1..] == [];
  }

  /** A badge that does not resolve is skipped: dropping it from the tag changes nothing. */
  lemma UnknownBadgeSkipped(raws: seq<string>, i: nat, channel: string, lookups: BadgeLookups)
    requires i < |raws| && LookupBadge(BadgeName(raws[i]), channel, lookups) == None
    ensures Resolved(raws[..i] + raws[i + 1..], channel, lookups) == Resolved(raws, channel, lookups)
  {
    var pre, b, post := raws[..i], raws[i], raws[i + 1..];
    assert raws == (pre + [b]) + post;
    UnknownResolvesToNothing(b, channel, lookups);
    ResolvedAppend(pre + [b], post, channel, lookups);
    ResolvedAppend(pre, [b], channel, lookups);
    ResolvedAppend(pre, post, channel, lookups);
    assert Resolved(pre + [b], channel, lookups) == Resolved(pre, channel, lookups);
  }
}
