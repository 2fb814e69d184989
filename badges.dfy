/**
 * The chat badge table (`TwitchBadges` → `TwitchBadgeSet` →
 * `TwitchBadge`) and `ChatMessage.parseTwitchBadges`, which turns the
 * `badges` tag of a chat line, such as `moderator/1,subscriber/12`, into
 * the list of badge image URLs.
 */
module Badges {
  import opened Wrappers
  import opened Strings

  datatype TwitchBadge = TwitchBadge(
    imageUrl1x: string,
    imageUrl2x: string,
    imageUrl4x: string,
    description: string,
    title: string,
    clickAction: string,
    clickUrl: string)

  datatype TwitchBadgeSet = TwitchBadgeSet(versions: map<string, TwitchBadge>)

  /** The decoded badge table; the app reads it from a global the API layer fills in. */
  datatype TwitchBadges = TwitchBadges(badgeSets: map<string, TwitchBadgeSet>)

  /** `badgeSets[name]?.versions[version]?.imageUrl4x`. */
  function Lookup(table: TwitchBadges, name: string, version: string): (r: Option<string>)
    ensures r.Some? <==> name in table.badgeSets && version in table.badgeSets[name].versions
    ensures r.Some? ==> r.value == table.badgeSets[name].versions[version].imageUrl4x
  {
    if name in table.badgeSets && version in table.badgeSets[name].versions
    then Some(table.badgeSets[name].versions[version].imageUrl4x)
    else None
  }

  /** The URL one comma-separated entry contributes: only `name/version` with exactly one `/` is looked up. */
  function EntryUrl(entry: string, table: TwitchBadges): Option<string>
  {
    var slashSplit := Split(entry, '/');
    if |slashSplit| == 2 then Lookup(table, slashSplit[0], slashSplit[1]) else None
  }

  /** The URLs of `entries`, in order, with the entries that are malformed or not in the table skipped. */
  function EntriesUrls(entries: seq<string>, table: TwitchBadges): seq<string>
  {
    if entries == [] then []
    else
      var last := entries[|entries| - 1];
      EntriesUrls(entries[..|entries| - 1], table) + (match EntryUrl(last, table) case Some(u) => [u] case None => [])
  }

  /** What `parseTwitchBadges` returns: nothing without a tag or without a table. */
  function BadgeUrls(badgesRaw: Option<string>, table: Option<TwitchBadges>): (urls: seq<string>)
    ensures badgesRaw.None? || table.None? ==> urls == []
  {
    if badgesRaw.Some? && table.Some? then EntriesUrls(Split(badgesRaw.value, ','), table.value) else []
  }

  /** The loop of `parseTwitchBadges` over the comma-separated entries. */
  method ParseTwitchBadges(badgesRaw: Option<string>, chatBadges: Option<TwitchBadges>) returns (badges: seq<string>)
    ensures badges == BadgeUrls(badgesRaw, chatBadges)
  {
    badges := [];
    if badgesRaw.Some? && chatBadges.Some? {
      var twitchBadges := chatBadges.value;
      var commaSplit := Split(badgesRaw.value, ',');
      var i := 0;
      while i < |commaSplit|
        invariant i <= |commaSplit|
        invariant badges == EntriesUrls(commaSplit[..i], twitchBadges)
      {
        var slashSplit := Split(commaSplit[i], '/');
        if |slashSplit| == 2 {
          var name, version := slashSplit[0], slashSplit[1];
          if name in twitchBadges.badgeSets && version in twitchBadges.badgeSets[name].versions {
            badges := badges + [twitchBadges.badgeSets[name].versions[version].imageUrl4x];
          }
        }
        assert commaSplit[..i + 1][..i] == commaSplit[..i];
        i := i + 1;
      }
      assert commaSplit[..i] == commaSplit;
    }
  }

  // ---------------------------------------------------------------------
  // Properties

  /** An entry contributes a URL only when it is `name/version` and the table has that version. */
  lemma EntryUrlFrom(entry: string, table: TwitchBadges)
    requires EntryUrl(entry, table).Some?
    ensures var parts := Split(entry, '/');
      && |parts| == 2 && entry == parts[0] + "/" + parts[1]
      && EntryUrl(entry, table) == Lookup(table, parts[0], parts[1])
  {
    JoinSplit(entry, '/');
    var parts := Split(entry, '/');
    assert Join(parts, '/') == parts[0] + "/" + Join(parts[1..], '/');
  }

  /** `name/version` is looked up as that name and version. */
  lemma EntryUrlOfPair(name: string, version: string, table: TwitchBadges)
    requires '/' !in name && '/' !in version
    ensures EntryUrl(name + "/" + version, table) == Lookup(table, name, version)
  {
    var parts := [name, version];
    assert Join(parts, '/') == name + "/" + version by {
      assert Join(parts[1..], '/') == version;
    }
    SplitJoin(parts, '/');
  }

  /** Entries are handled one by one: the URLs of a concatenation are the concatenated URLs. */
  lemma {:induction false} EntriesUrlsAppend(a: seq<string>, b: seq<string>, table: TwitchBadges)
    ensures EntriesUrls(a + b, table) == EntriesUrls(a, table) + EntriesUrls(b, table)
    decreases |b|
  {
    if b == [] {
      assert a + b == a;
    } else {
      var b' := b[..|b| - 1];
      assert (a + b)[..|a + b| - 1] == a + b';
      assert (a + b)[|a + b| - 1] == b[|b| - 1];
      EntriesUrlsAppend(a, b', table);
    }
  }

  /** There is at most one URL per entry. */
  lemma {:induction false} EntriesUrlsBound(entries: seq<string>, table: TwitchBadges)
    ensures |EntriesUrls(entries, table)| <= |entries|
  {
    if entries != [] {
      EntriesUrlsBound(entries[..|entries| - 1], table);
    }
  }

  /** A URL is in the table's 4x images: every badge shown is one the table knows. */
  ghost predicate InTable(url: string, table: TwitchBadges) {
    exists name, version :: Lookup(table, name, version) == Some(url)
  }

  lemma {:induction false} EntriesUrlsInTable(entries: seq<string>, table: TwitchBadges)
    ensures forall u :: u in EntriesUrls(entries, table) ==> InTable(u, table)
  {
    if entries != [] {
      var last := entries[|entries| - 1];
      EntriesUrlsInTable(entries[..|entries| - 1], table);
      var extra := match EntryUrl(last, table) case Some(u) => [u] case None => [];
      if EntryUrl(last, table).Some? {
        var parts := Split(last, '/');
        assert Lookup(table, parts[0], parts[1]) == Some(extra[0]);
      }
    }
  }

  // ---------------------------------------------------------------------
  // Writing a badge tag and reading it back

  /** The `name/version` entries of a list of badges. */
  function Entries(pairs: seq<(string, string)>): (entries: seq<string>)
    ensures |entries| == |pairs|
  {
    if pairs == [] then []
    else Entries(pairs[..|pairs| - 1]) + [pairs[|pairs| - 1].0 + "/" + pairs[|pairs| - 1].1]
  }

  /** The URLs of the listed badges the table has, in list order: an independent reading of the tag. */
  function Hits(pairs: seq<(string, string)>, table: TwitchBadges): seq<string>
  {
    if pairs == [] then []
    else
      var (n, v) := pairs[|pairs| - 1];
      Hits(pairs[..|pairs| - 1], table) + (if Lookup(table, n, v).Some? then [Lookup(table, n, v).value] else [])
  }

  predicate IsBadgeName(s: string) { ',' !in s && '/' !in s }

  lemma {:induction false} EntriesHaveNoComma(pairs: seq<(string, string)>)
    requires forall i :: 0 <= i < |pairs| ==> IsBadgeName(pairs[i].0) && IsBadgeName(pairs[i].1)
    ensures forall i :: 0 <= i < |pairs| ==> ',' !in Entries(pairs)[i]
  {
    if pairs != [] {
      EntriesHaveNoComma(pairs[..|pairs| - 1]);
    }
  }

  lemma {:induction false} EntriesUrlsOfPairs(pairs: seq<(string, string)>, table: TwitchBadges)
    requires forall i :: 0 <= i < |pairs| ==> IsBadgeName(pairs[i].0) && IsBadgeName(pairs[i].1)
    ensures EntriesUrls(Entries(pairs), table) == Hits(pairs, table)
  {
    if pairs != [] {
      var last := pairs[|pairs| - 1];
      EntriesUrlsOfPairs(pairs[..|pairs| - 1], table);
      EntryUrlOfPair(last.0, last.1, table);
      assert Entries(pairs)[..|pairs| - 1] == Entries(pairs[..|pairs| - 1]);
    }
  }

  /**
   * The tag `n1/v1,n2/v2,...` yields the 4x URL of each listed badge the
   * table has, in tag order, and skips the rest.
   */
  lemma BadgeUrlsOfTag(pairs: seq<(string, string)>, table: TwitchBadges)
    requires |pairs| > 0
    requires forall i :: 0 <= i < |pairs| ==> IsBadgeName(pairs[i].0) && IsBadgeName(pairs[i].1)
    ensures BadgeUrls(Some(Join(Entries(pairs), ',')), Some(table)) == Hits(pairs, table)
  {
    EntriesHaveNoComma(pairs);
    SplitJoin(Entries(pairs), ',');
    EntriesUrlsOfPairs(pairs, table);
  }
}
