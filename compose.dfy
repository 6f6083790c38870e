/** Building the Discord message (main.py:41, 54-78): one overview embed, then one embed
    per key of the presence record, in the record's order. */
module Composition {
  import opened Wrappers
  import opened Sequences
  import opened Presence
  import opened Text
  import opened Reconciliation

  const DigestLength: nat := 32

  /** What `hashlib.md5(name.encode()).hexdigest()` returns: 32 lowercase hexadecimal digits.
      The digest itself is a parameter of the composition, never computed here. */
  type HexDigest = s: string | |s| == DigestLength && AllHex(s)
    witness "00000000000000000000000000000000"

  /** How many leading digest digits make the colour. */
  const ColourDigits: nat := 6

  datatype Embed = Embed(
    title: string,
    description: Option<string>,
    imageUrl: Option<string>,
    color: nat,
    footer: string)

  datatype Message = Message(embeds: seq<Embed>)

  const StatusTitle := "Server Status"
  const StatusColor: nat := 3332471
  const AvatarPrefix := "https://minotar.net/helm/"
  const AvatarSuffix := "/30"

  /** The `s` after "player": `"s" if (count or 2) > 1 else ""`, where a count of 0 is
      falsy and so counts as 2. */
  function PluralSuffix(count: int): (suffix: string)
    ensures suffix == "" || suffix == "s"
    ensures suffix == "" <==> count == 1 || count < 0
  {
    if (if count == 0 then 2 else count) > 1 then "s" else ""
  }

  /** "`count` player(s) online", the bold line of the overview: the rendered count, then
      one of the two wordings. */
  function CountLine(count: int): (line: string)
    ensures |line| > |IntText(count)| && line[..|IntText(count)|] == IntText(count)
    ensures line[|IntText(count)|..] in [" player online", " players online"]
  {
    var wording := " player" + PluralSuffix(count) + " online";
    assert wording == if PluralSuffix(count) == "" then " player online" else " players online";
    assert (IntText(count) + wording)[|IntText(count)|..] == wording;
    IntText(count) + wording
  }

  /** For a count of zero or more, the word is "player" exactly when the count is 1. */
  lemma CountLineWording(count: int)
    requires count >= 0
    ensures count == 1 ==> CountLine(count) == IntText(count) + " player online"
    ensures count != 1 ==> CountLine(count) == IntText(count) + " players online"
  {
  }

  lemma CountLineExamples()
    ensures CountLine(0) == "0 players online"
    ensures CountLine(1) == "1 player online"
    ensures CountLine(7) == "7 players online"
  {
  }

  /** The first embed: the motd in a code block and the count line in bold, under the fixed
      title and colour, with the run's time in the footer and no image. */
  function Overview(motdLines: seq<string>, count: int, clock: string): (e: Embed)
    ensures e.title == StatusTitle && e.color == StatusColor
    ensures e.imageUrl == None && e.footer == "Last updated at " + clock
    ensures e.description.Some?
    ensures var text := e.description.value; var motd := JoinLines(motdLines);
      && |text| > 3 + |motd| + 3
      && text[..3] == "```" && text[3..3 + |motd|] == motd && text[3 + |motd|..6 + |motd|] == "```"
      && text[6 + |motd|..] == "\n**" + CountLine(count) + "**"
  {
    var motd := JoinLines(motdLines);
    var block := "```" + motd + "```";
    var bold := "\n**" + CountLine(count) + "**";
    assert block[..3] == "```" && block[3..3 + |motd|] == motd && block[3 + |motd|..] == "```";
    assert (block + bold)[..|block|] == block && (block + bold)[|block|..] == bold;
    Embed(StatusTitle, Some(block + bold), None, StatusColor, "Last updated at " + clock)
  }

  /** The avatar image of a player: the player's name between the avatar prefix and suffix. */
  function AvatarUrl(name: PlayerName): (url: string)
    ensures |url| == |AvatarPrefix| + |name| + |AvatarSuffix|
    ensures url[..|AvatarPrefix|] == AvatarPrefix && url[|url| - |AvatarSuffix|..] == AvatarSuffix
    ensures url[|AvatarPrefix|..|url| - |AvatarSuffix|] == name
  {
    AvatarPrefix + name + AvatarSuffix
  }

  /** The player name an avatar URL was built from, if it has the avatar URL's shape. */
  function AvatarName(url: string): Option<PlayerName> {
    if |url| >= |AvatarPrefix| + |AvatarSuffix|
       && url[..|AvatarPrefix|] == AvatarPrefix
       && url[|url| - |AvatarSuffix|..] == AvatarSuffix
    then Some(url[|AvatarPrefix|..|url| - |AvatarSuffix|])
    else None
  }

  /** Each player's avatar URL names that player. */
  lemma AvatarUrlRoundTrip(name: PlayerName)
    ensures AvatarName(AvatarUrl(name)) == Some(name)
  {
    var url := AvatarUrl(name);
    assert url[..|AvatarPrefix|] == AvatarPrefix;
    assert url[|url| - |AvatarSuffix|..] == AvatarSuffix;
    assert url[|AvatarPrefix|..|url| - |AvatarSuffix|] == name;
  }

  /** `int(digest[:6], 16)`: a 24-bit colour whose six hexadecimal digits are the first six
      digits of the digest. */
  function Colour(digest: HexDigest): (c: nat)
    ensures c < 0x100_0000
    ensures HexText(c, ColourDigits) == digest[..ColourDigits]
  {
    var prefix := digest[..ColourDigits];
    HexRoundTrip(prefix);
    assert Pow16(ColourDigits) == 0x100_0000;
    HexValue(prefix)
  }

  /** The embed of one player: titled with the name, with no description, the player's
      avatar, the colour taken from the name's digest and the first-seen time of day. */
  function PlayerEmbed(name: PlayerName, firstSeen: Timestamp,
                       digest: PlayerName -> HexDigest, hourMinute: Timestamp -> string): (e: Embed)
    ensures e.title == name && e.description == None
    ensures e.imageUrl.Some? && AvatarName(e.imageUrl.value) == Some(name)
    ensures e.color == Colour(digest(name))
    ensures HexText(e.color, ColourDigits) == digest(name)[..ColourDigits]
    ensures e.footer == "online since " + hourMinute(firstSeen)
  {
    AvatarUrlRoundTrip(name);
    Embed(name, None, Some(AvatarUrl(name)), Colour(digest(name)), "online since " + hourMinute(firstSeen))
  }

  /** The message: the overview, then one embed per key of the record in the record's order.
      `clock` is the rendered time of day of the run; `digest` and `hourMinute` stand for the
      MD5 hex digest and for the `%H:%M` rendering of a stored timestamp. */
  function Compose(motdLines: seq<string>, count: int, clock: string, statuses: Statuses,
                   digest: PlayerName -> HexDigest, hourMinute: Timestamp -> string): (m: Message)
    requires statuses.Valid()
    ensures |m.embeds| == 1 + |statuses.order|
    ensures m.embeds[0] == Overview(motdLines, count, clock)
    ensures m.embeds[0].title == StatusTitle && m.embeds[0].color == StatusColor
    ensures m.embeds[0].imageUrl == None && m.embeds[0].footer == "Last updated at " + clock
    ensures forall i :: 1 <= i < |m.embeds| ==>
      var name := statuses.order[i - 1];
      m.embeds[i] == PlayerEmbed(name, statuses.since[name], digest, hourMinute)
    ensures forall i, j :: 1 <= i < j < |m.embeds| ==> m.embeds[i].title != m.embeds[j].title
  {
    var players := seq(|statuses.order|, i requires 0 <= i < |statuses.order| =>
      PlayerEmbed(statuses.order[i], statuses.since[statuses.order[i]], digest, hourMinute));
    Message([Overview(motdLines, count, clock)] + players)
  }

  function Titles(embeds: seq<Embed>): (titles: seq<string>)
    ensures |titles| == |embeds|
  {
    seq(|embeds|, i requires 0 <= i < |embeds| => embeds[i].title)
  }

  /** With no player list, or an empty one, the message is the overview alone. */
  lemma OverviewOnlyWithoutPlayers(prior: Statuses, playerList: Option<seq<PlayerName>>, now: Timestamp,
                                   motdLines: seq<string>, count: int, clock: string,
                                   digest: PlayerName -> HexDigest, hourMinute: Timestamp -> string)
    requires prior.Valid()
    requires playerList == None || playerList == Some([])
    ensures |Compose(motdLines, count, clock, Reconciled(prior, playerList, now), digest, hourMinute).embeds| == 1
  {
  }

  /** After reconciling with a non-empty list, the player embeds are one per listed name:
      first the players who were already online, in their old order, then the newcomers in
      the order of the list. */
  lemma PlayerEmbedsFollowRecord(prior: Statuses, names: seq<PlayerName>, now: Timestamp,
                                 motdLines: seq<string>, count: int, clock: string,
                                 digest: PlayerName -> HexDigest, hourMinute: Timestamp -> string)
    requires prior.Valid() && names != []
    ensures var m := Compose(motdLines, count, clock, Reconciled(prior, Some(names), now), digest, hourMinute);
      && Titles(m.embeds[1..]) == Filter(prior.order, Elements(names)) + Newcomers(prior.since.Keys, names)
      && forall n :: n in Titles(m.embeds[1..]) <==> n in names
  {
    var r := Reconciled(prior, Some(names), now);
    var m := Compose(motdLines, count, clock, r, digest, hourMinute);
    assert Titles(m.embeds[1..]) == r.order;
    ReconciledOrder(prior, names, now);
    ReconciledKeys(prior, names, now);
  }
}
