/** Reading a server's audit log page by page. The log is a stream of records, newest
    first; a page starts below a record id the client passes back as text. */
module AuditPage {
  import opened Basics
  import opened Text
  import opened Json
  import JsonObject
  import Snowflake

  // A stream entry's fields as they were stored.
  type Fields = map<string, string>

  /** A stream entry and the id its fields give it. */
  datatype Record = Record(id: I64, fields: Fields)

  datatype User = User(username: string, avatarUrl: Option<string>)

  datatype Profile = Profile(username: Option<string>, avatar: Option<string>)

  datatype Entry = Entry(
    id: string, actorId: string, action: string, targetType: string, targetId: string, metadata: Option<Json>,
    createdAt: string, actorUsername: Option<string>, actorAvatar: Option<string>)

  /** What a page is rendered with: the users table, the text of a time in milliseconds
      (empty if it is out of the calendar's range) and the link for an avatar. */
  datatype View = View(user: I64 -> Option<User>, timeText: int -> string, link: Option<string> -> Option<string>)

  const ID: string := "id"
  const ACTOR_ID: string := "actor_id"
  const ACTION: string := "action"
  const TARGET_TYPE: string := "target_type"
  const TARGET_ID: string := "target_id"
  const METADATA: string := "metadata"

  /** A missing field reads as empty, and a number that does not parse as zero. */
  function TextIn(f: Fields, key: string): string { if key in f then f[key] else [] }

  function NumberIn(f: Fields, key: string): I64 {
    match ParseI64(TextIn(f, key))
    case Some(n) => n
    case None => 0
  }

  function Read(f: Fields): Record { Record(NumberIn(f, ID), f) }

  function ReadAll(stream: seq<Fields>): (r: seq<Record>)
    ensures |r| == |stream|
  {
    seq(|stream|, i requires 0 <= i < |stream| => Read(stream[i]))
  }

  function Limit(requested: Option<I64>): (n: nat)
    ensures 1 <= n <= 100
  {
    Max(Min(if requested.Some? then requested.value else 50, 100), 1)
  }

  function FetchCap(limit: nat): nat { Min(2 * limit, 500) }

  /** A cursor that is not a number is ignored. */
  function Before(cursor: Option<string>): Option<int> {
    match cursor
    case None => None
    case Some(text) => ParseI64(text)
  }

  predicate Below(before: Option<int>, id: int) { before.Some? ==> id < before.value }

  /** The records a page is taken from: those of the fetched window below the cursor. */
  function Matching(window: seq<Record>, before: Option<int>): seq<Record> {
    if window == [] then []
    else
      Matching(window[..|window| - 1], before)
      + (if Below(before, window[|window| - 1].id) then [window[|window| - 1]] else [])
  }

  function Take(s: seq<Record>, n: nat): seq<Record> { if n < |s| then s[..n] else s }

  function PageBelow(stream: seq<Record>, before: Option<int>, limit: nat): seq<Record> {
    Take(Matching(Take(stream, FetchCap(limit)), before), limit)
  }

  function Page(stream: seq<Record>, cursor: Option<string>, requested: Option<I64>): seq<Record> {
    PageBelow(stream, Before(cursor), Limit(requested))
  }

  // ----- The entries shown ---------------------------------------------------------------------

  function Actor(view: View, actorId: I64): Profile {
    if actorId == 0 then Profile(None, None)
    else
      match view.user(actorId)
      case None => Profile(None, None)
      case Some(u) => Profile(Some(u.username), if u.avatarUrl == Some([]) then None else u.avatarUrl)
  }

  /** Metadata that is not a document is left out. */
  function Metadata(f: Fields): Option<Json> {
    match Parse(TextIn(f, METADATA))
    case Some(tree) => if TextIn(f, METADATA) == [] then None else Some(JsonObject.Normalize(tree))
    case None => None
  }

  /** The generation time an id carries, rounding down as an arithmetic shift does. */
  function CreatedAt(id: int): int { id / 0x40_0000 + Snowflake.EPOCH_MS }

  function EntryFor(view: View, r: Record, actor: Profile): Entry {
    Entry(ToDecimal(r.id), ToDecimal(NumberIn(r.fields, ACTOR_ID)), TextIn(r.fields, ACTION),
          TextIn(r.fields, TARGET_TYPE), ToDecimal(NumberIn(r.fields, TARGET_ID)), Metadata(r.fields),
          view.timeText(CreatedAt(r.id)), actor.username, view.link(actor.avatar))
  }

  function Shown(view: View, r: Record): Entry { EntryFor(view, r, Actor(view, NumberIn(r.fields, ACTOR_ID))) }

  function ShownAll(view: View, records: seq<Record>): (e: seq<Entry>)
    ensures |e| == |records|
  {
    seq(|records|, i requires 0 <= i < |records| => Shown(view, records[i]))
  }

  // The field's text, and the number it reads as.
  function FieldText(f: Fields, key: string): string { if key in f then f[key] else "" }

  function FieldNumber(f: Fields, key: string): int {
    if ParseI64(FieldText(f, key)).Some? then ParseI64(FieldText(f, key)).value else 0
  }

  /** Which stored field each part of a shown entry comes from. */
  lemma EntryComesFromItsFields(view: View, f: Fields)
    ensures var e, id := Shown(view, Read(f)), FieldNumber(f, "id");
            && e.id == ToDecimal(id) && e.createdAt == view.timeText(id / 4_194_304 + 1_735_689_600_000)
            && e.actorId == ToDecimal(FieldNumber(f, "actor_id")) && e.action == FieldText(f, "action")
            && e.targetType == FieldText(f, "target_type") && e.targetId == ToDecimal(FieldNumber(f, "target_id"))
            && (e.metadata.Some? <==> FieldText(f, "metadata") != "" && Parse(FieldText(f, "metadata")).Some?)
            && (e.metadata.Some? ==> e.metadata.value == JsonObject.Normalize(Parse(FieldText(f, "metadata")).value))
  {
  }

  /** Whose name and picture an entry shows; actor zero and an unknown actor have neither, and
      an empty picture counts as none. */
  lemma EntryShowsItsActor(view: View, f: Fields)
    ensures var e, actor := Shown(view, Read(f)), FieldNumber(f, "actor_id");
            if actor == 0 || view.user(actor).None? then e.actorUsername == None && e.actorAvatar == view.link(None)
            else
              var u := view.user(actor).value;
              e.actorUsername == Some(u.username)
              && e.actorAvatar == view.link(if u.avatarUrl == Some("") then None else u.avatarUrl)
  {
  }

  /** Fifty entries unless asked for otherwise, at least one and at most a hundred, from twice
      as many records. */
  lemma LimitTable(requested: I64)
    ensures Limit(None) == 50
    ensures Limit(Some(requested)) == if requested < 1 then 1 else if requested > 100 then 100 else requested
    ensures FetchCap(Limit(Some(requested))) == 2 * Limit(Some(requested)) && FetchCap(Limit(None)) == 100
  {
  }

  /** Actors are looked up once each; the cache never changes what is shown. */
  method GetAuditLog(stream: seq<Fields>, cursor: Option<string>, requested: Option<I64>, view: View)
    returns (entries: seq<Entry>)
    ensures entries == ShownAll(view, Page(ReadAll(stream), cursor, requested))
  {
    var cap := FetchCap(Limit(requested));
    var raw := if cap < |stream| then stream[..cap] else stream;
    assert ReadAll(raw) == Take(ReadAll(stream), cap);
    entries := Collect(raw, Before(cursor), Limit(requested), view);
  }

  type Cache = map<I64, Profile>

  ghost predicate Faithful(cache: Cache, view: View) { forall a :: a in cache ==> cache[a] == Actor(view, a) }

  method Resolve(cache: Cache, view: View, actorId: I64) returns (profile: Profile, next: Cache)
    requires Faithful(cache, view)
    ensures profile == Actor(view, actorId) && Faithful(next, view)
  {
    if actorId in cache {
      return cache[actorId], cache;
    }
    profile := Actor(view, actorId);
    next := cache[actorId := profile];
  }

  method Collect(raw: seq<Fields>, before: Option<int>, limit: nat, view: View) returns (entries: seq<Entry>)
    requires limit > 0
    ensures entries == ShownAll(view, Take(Matching(ReadAll(raw), before), limit))
  {
    ghost var records := ReadAll(raw);
    ghost var taken: seq<Record> := [];
    var cache: Cache := map[];
    var i := 0;
    entries := [];
    while i < |raw|
      invariant i <= |raw| && taken == Matching(records[..i], before) && |taken| < limit
      invariant entries == ShownAll(view, taken) && Faithful(cache, view)
    {
      ghost var r := records[i];
      TakeOneMore(records, i, before);
      ShownSnoc(view, taken, r);
      entries, cache := Visit(entries, cache, Read(raw[i]), before, view);
      taken := if Below(before, r.id) then taken + [r] else taken;
      i := i + 1;
      if |entries| >= limit {
        break;
      }
    }
    EnoughOrAll(records, i, before, limit);
  }

  lemma {:induction false} EnoughOrAll(records: seq<Record>, i: nat, before: Option<int>, limit: nat)
    requires i <= |records| && |Matching(records[..i], before)| <= limit
    requires i == |records| || |Matching(records[..i], before)| == limit
    ensures Take(Matching(records, before), limit) == Matching(records[..i], before)
  {
    if i == |records| {
      assert records[..i] == records;
    } else {
      EnoughMatching(records, i, before, limit);
    }
  }

  lemma {:induction false} TakeOneMore(records: seq<Record>, i: nat, before: Option<int>)
    requires i < |records|
    ensures Matching(records[..i + 1], before) ==
            Matching(records[..i], before) + (if Below(before, records[i].id) then [records[i]] else [])
  {
    assert records[..i + 1] == records[..i] + [records[i]];
    MatchingSnoc(records[..i], records[i], before);
  }

  method Visit(entries: seq<Entry>, cache: Cache, r: Record, before: Option<int>, view: View)
    returns (more: seq<Entry>, next: Cache)
    requires Faithful(cache, view)
    ensures more == (if Below(before, r.id) then entries + [Shown(view, r)] else entries) && Faithful(next, view)
  {
    if before.Some? && r.id >= before.value {
      return entries, cache;
    }
    var profile;
    profile, next := Resolve(cache, view, NumberIn(r.fields, ACTOR_ID));
    more := entries + [EntryFor(view, r, profile)];
  }

  lemma ShownSnoc(view: View, records: seq<Record>, r: Record)
    ensures ShownAll(view, records + [r]) == ShownAll(view, records) + [Shown(view, r)]
  {
  }

  lemma {:induction false} MatchingSnoc(window: seq<Record>, r: Record, before: Option<int>)
    ensures Matching(window + [r], before) == Matching(window, before) + (if Below(before, r.id) then [r] else [])
  {
    assert (window + [r])[..|window|] == window;
  }

  lemma {:induction false} MatchingOfPrefix(window: seq<Record>, n: nat, before: Option<int>)
    requires n <= |window|
    ensures |Matching(window[..n], before)| <= |Matching(window, before)|
    ensures Matching(window, before)[..|Matching(window[..n], before)|] == Matching(window[..n], before)
  {
    if n == |window| {
      assert window[..n] == window;
    } else {
      assert window[..|window| - 1][..n] == window[..n];
      MatchingOfPrefix(window[..|window| - 1], n, before);
    }
  }

  lemma {:induction false} EnoughMatching(window: seq<Record>, n: nat, before: Option<int>, limit: nat)
    requires n <= |window| && |Matching(window[..n], before)| == limit
    ensures Take(Matching(window, before), limit) == Matching(window[..n], before)
  {
    MatchingOfPrefix(window, n, before);
  }

  // ----- Following the cursor -----------------------------------------------------------------------

  /** Newest first, as ids that grow with time leave them. */
  predicate NewestFirst(stream: seq<Record>) { forall i, j :: 0 <= i < j < |stream| ==> stream[j].id < stream[i].id }

  function Slice(stream: seq<Record>, from: nat, to: nat): seq<Record> {
    var end := Min(to, |stream|);
    if from <= end then stream[from..end] else []
  }

  lemma {:induction false} MatchingAll(window: seq<Record>)
    ensures Matching(window, None) == window
  {
    if window != [] {
      MatchingAll(window[..|window| - 1]);
      assert window[..|window| - 1] + [window[|window| - 1]] == window;
    }
  }

  lemma {:induction false} MatchingAfter(window: seq<Record>, i: nat)
    requires NewestFirst(window) && i < |window|
    ensures Matching(window, Some(window[i].id)) == window[i + 1..]
    decreases |window|
  {
    var n := |window| - 1;
    var shorter := window[..n];
    if i == n {
      NoneBelow(shorter, window[n].id);
    } else {
      MatchingAfter(shorter, i);
      assert shorter[i] == window[i];
      assert shorter[i + 1..] + [window[n]] == window[i + 1..];
    }
  }

  lemma {:induction false} NoneBelow(window: seq<Record>, id: int)
    requires forall i :: 0 <= i < |window| ==> id < window[i].id
    ensures Matching(window, Some(id)) == []
  {
    if window != [] {
      NoneBelow(window[..|window| - 1], id);
    }
  }

  lemma {:induction false} MatchingOfOlder(window: seq<Record>, id: int)
    requires forall i :: 0 <= i < |window| ==> id <= window[i].id
    ensures Matching(window, Some(id)) == []
  {
    if window != [] {
      MatchingOfOlder(window[..|window| - 1], id);
    }
  }

  lemma WindowSlice(stream: seq<Record>, from: nat, limit: nat)
    requires from <= |Take(stream, 2 * limit)|
    ensures Take(Take(stream, 2 * limit)[from..], limit) == Slice(stream, from, Min(from + limit, 2 * limit))
  {
  }

  lemma {:induction false} MatchingInside(stream: seq<Record>, i: nat, limit: nat)
    requires NewestFirst(stream) && i < |Take(stream, 2 * limit)|
    ensures Matching(Take(stream, 2 * limit), Some(stream[i].id)) == Take(stream, 2 * limit)[i + 1..]
  {
    TakeKeepsOrder(stream, 2 * limit);
    MatchingAfter(Take(stream, 2 * limit), i);
  }

  lemma {:induction false} PageInside(stream: seq<Record>, i: nat, limit: nat)
    requires NewestFirst(stream) && i < |Take(stream, 2 * limit)| && 1 <= limit <= 100
    ensures PageBelow(stream, Some(stream[i].id), limit) == Slice(stream, i + 1, Min(i + 1 + limit, 2 * limit))
  {
    MatchingInside(stream, i, limit);
    WindowSlice(stream, i + 1, limit);
  }

  lemma {:induction false} PageOutside(stream: seq<Record>, i: nat, limit: nat)
    requires NewestFirst(stream) && |Take(stream, 2 * limit)| <= i < |stream| && 1 <= limit <= 100
    ensures PageBelow(stream, Some(stream[i].id), limit) == []
  {
    BehindWindow(stream, i, 2 * limit);
    MatchingOfOlder(Take(stream, 2 * limit), stream[i].id);
    assert FetchCap(limit) == 2 * limit;
  }

  /** The page after record `i` is the next slice of the stream, but only as far as the
      newest `2 * limit` records go. */
  lemma PageAfter(stream: seq<Record>, i: nat, limit: nat)
    requires NewestFirst(stream) && i < |stream| && 1 <= limit <= 100
    ensures PageBelow(stream, Some(stream[i].id), limit) == Slice(stream, i + 1, Min(i + 1 + limit, 2 * limit))
  {
    if i < |Take(stream, 2 * limit)| {
      PageInside(stream, i, limit);
    } else {
      PageOutside(stream, i, limit);
    }
  }

  lemma TakeKeepsOrder(stream: seq<Record>, n: nat)
    requires NewestFirst(stream)
    ensures NewestFirst(Take(stream, n))
  {
    var window := Take(stream, n);
    forall i, j | 0 <= i < j < |window| ensures window[j].id < window[i].id {
      assert stream[j].id < stream[i].id;
    }
  }

  lemma BehindWindow(stream: seq<Record>, i: nat, n: nat)
    requires NewestFirst(stream) && n <= i < |stream|
    ensures forall k :: 0 <= k < |Take(stream, n)| ==> stream[i].id <= Take(stream, n)[k].id
  {
    forall k | 0 <= k < |Take(stream, n)| ensures stream[i].id <= Take(stream, n)[k].id {
      assert stream[i].id < stream[k].id;
    }
  }

  lemma FirstPage(stream: seq<Record>, limit: nat)
    requires NewestFirst(stream) && 1 <= limit <= 100
    ensures PageBelow(stream, None, limit) == Slice(stream, 0, limit)
  {
    MatchingAll(Take(stream, 2 * limit));
    WindowSlice(stream, 0, limit);
    assert Take(stream, 2 * limit)[0..] == Take(stream, 2 * limit);
  }

  /** The cursor a client is given is read back as the id it stands for. */
  lemma CursorReadsBack(stream: seq<Record>, id: I64, requested: Option<I64>)
    ensures Page(stream, Some(ToDecimal(id)), requested) == PageBelow(stream, Some(id), Limit(requested))
  {
    ParseToDecimal(id);
  }

  /** A cursor that is no number counts for nothing, and one that is shows only older ids. */
  lemma CursorMeans(stream: seq<Record>, text: string, requested: Option<I64>)
    ensures ParseI64(text).None? ==> Page(stream, Some(text), requested) == Page(stream, None, requested)
    ensures ParseI64(text).Some? ==>
              forall r :: r in Page(stream, Some(text), requested) ==> r in stream && r.id < ParseI64(text).value
  {
    if ParseI64(text).Some? {
      var window, id := Take(stream, FetchCap(Limit(requested))), ParseI64(text).value;
      MatchingIsBelow(window, id);
      TakenIsThere(stream, FetchCap(Limit(requested)));
      TakenIsThere(Matching(window, Some(id)), Limit(requested));
    }
  }

  lemma TakenIsThere(s: seq<Record>, n: nat)
    ensures forall r :: r in Take(s, n) ==> r in s
  {
  }

  lemma {:induction false} MatchingIsBelow(window: seq<Record>, id: int)
    ensures forall r :: r in Matching(window, Some(id)) ==> r in window && r.id < id
  {
    if window != [] {
      MatchingIsBelow(window[..|window| - 1], id);
    }
  }

  /** The pages a client sees that keeps asking below the last record it was given, until a
      page comes back empty. */
  function Follow(stream: seq<Record>, before: Option<int>, limit: nat, pages: nat): seq<seq<Record>>
    decreases pages
  {
    var page := PageBelow(stream, before, limit);
    if pages == 0 || page == [] then []
    else [page] + Follow(stream, Some(page[|page| - 1].id), limit, pages - 1)
  }

  // One page, and the cursor its last record gives.
  lemma FollowStep(stream: seq<Record>, before: Option<int>, limit: nat, pages: nat,
                                      from: nat, to: nat)
    requires pages > 0 && from <= to <= |stream| && PageBelow(stream, before, limit) == Slice(stream, from, to)
    ensures Follow(stream, before, limit, pages) ==
            if to <= from then []
            else [Slice(stream, from, to)] + Follow(stream, Some(stream[to - 1].id), limit, pages - 1)
  {
    if from < to {
      assert Slice(stream, from, to)[to - from - 1] == stream[to - 1];
    }
  }

  lemma NoMorePages(stream: seq<Record>, i: nat, limit: nat, pages: nat)
    requires NewestFirst(stream) && i < |stream| && 1 <= limit <= 100 && Min(2 * limit, |stream|) <= i + 1
    ensures Follow(stream, Some(stream[i].id), limit, pages) == []
  {
    PageAfter(stream, i, limit);
  }

  lemma SecondPage(stream: seq<Record>, limit: nat)
    requires NewestFirst(stream) && 1 <= limit <= 100 && limit < |stream|
    ensures PageBelow(stream, Some(stream[limit - 1].id), limit) == Slice(stream, limit, 2 * limit)
    ensures Slice(stream, limit, 2 * limit) == Slice(stream, limit, Min(2 * limit, |stream|))
  {
    PageAfter(stream, limit - 1, limit);
    assert Min(limit - 1 + 1 + limit, 2 * limit) == 2 * limit;
  }

  lemma FollowSecond(stream: seq<Record>, limit: nat, pages: nat)
    requires NewestFirst(stream) && 1 <= limit <= 100 && limit < |stream| && pages > 1
    ensures Follow(stream, Some(stream[limit - 1].id), limit, pages) == [Slice(stream, limit, 2 * limit)]
  {
    var end := Min(2 * limit, |stream|);
    SecondPage(stream, limit);
    FollowStep(stream, Some(stream[limit - 1].id), limit, pages, limit, end);
    NoMorePages(stream, end - 1, limit, pages - 1);
  }

  /** Following the cursor gives the stream's first two slices and then nothing, however
      long the client goes on: no record is repeated or skipped among the newest
      `2 * limit`, and no older record is ever shown. */
  lemma {:induction false} FollowShowsTwoPages(stream: seq<Record>, limit: nat, pages: nat)
    requires NewestFirst(stream) && 1 <= limit <= 100 && pages > 2
    ensures var first, second := Slice(stream, 0, limit), Slice(stream, limit, 2 * limit);
            Follow(stream, None, limit, pages) ==
            if first == [] then [] else if second == [] then [first] else [first, second]
  {
    if limit < |stream| {
      FollowBoth(stream, limit, pages);
    } else {
      FollowFirst(stream, limit, pages);
    }
  }

  lemma FollowBoth(stream: seq<Record>, limit: nat, pages: nat)
    requires NewestFirst(stream) && 1 <= limit <= 100 && limit < |stream| && pages > 2
    ensures Follow(stream, None, limit, pages) == [Slice(stream, 0, limit), Slice(stream, limit, 2 * limit)]
  {
    FirstPage(stream, limit);
    FollowStep(stream, None, limit, pages, 0, limit);
    FollowSecond(stream, limit, pages - 1);
  }

  lemma FollowFirst(stream: seq<Record>, limit: nat, pages: nat)
    requires NewestFirst(stream) && 1 <= limit <= 100 && |stream| <= limit && pages > 1
    ensures Follow(stream, None, limit, pages) == if stream == [] then [] else [Slice(stream, 0, limit)]
  {
    FirstPage(stream, limit);
    assert Slice(stream, 0, limit) == Slice(stream, 0, |stream|);
    FollowStep(stream, None, limit, pages, 0, |stream|);
    if stream != [] {
      NoMorePages(stream, |stream| - 1, limit, pages - 1);
    }
  }
}
