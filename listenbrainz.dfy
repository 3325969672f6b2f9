/** The two transformations of the ListenBrainz plugin over decoded JSON:
    picking out and classifying the weekly playlists ListenBrainz generates
    for a user, and flattening a playlist's tracks into records. */
module ListenBrainz {
  import opened Wrappers
  import opened Text
  import opened Dates

  /** The account name under which ListenBrainz publishes generated playlists. */
  const ListenBrainzCreator := "listenbrainz"
  /** The marker in a generated playlist's title that precedes its date. */
  const WeekOf := "week of "

  /** What the plugin's HTTP helper hands back: the decoded JSON body, or
      the empty list it returns after a request error. */
  datatype Reply<T> = Decoded(body: T) | RequestFailed

  /** A playlist descriptor of the listing; each key may be absent. */
  datatype PlaylistInfo = PlaylistInfo(creator: Option<string>, title: Option<string>, identifier: Option<string>)
  /** One entry of the listing's `playlists` array, wrapping a descriptor. */
  datatype Entry = Entry(playlist: Option<PlaylistInfo>)
  /** The listing of playlists created for a user. */
  datatype Listing = Listing(playlists: Option<seq<Entry>>)

  datatype PlaylistType = Exploration | Jams
  /** The `{type, date, identifier}` record made for a generated playlist. */
  datatype WeeklyPlaylist = WeeklyPlaylist(kind: PlaylistType, date: Date, identifier: string)

  /** A track of a playlist document; each key may be absent. */
  datatype Track = Track(creator: Option<string>, title: Option<string>, identifier: Option<string>)
  datatype TrackList = TrackList(track: Option<seq<Track>>)
  /** The document returned for one playlist. */
  datatype PlaylistDoc = PlaylistDoc(playlist: Option<TrackList>)
  /** The `{artist, identifier, title}` record made for a track. */
  datatype TrackRecord = TrackRecord(artist: Option<string>, identifier: string, title: Option<string>)

  /** The Python exceptions that abort a call: a missing object (`.get` or
      `.split` on None or on a list), iterating or searching None, a title
      without the date marker, a bad date, and `type` never assigned. */
  datatype Error = AttributeError | TypeError | IndexError | ValueError | UnboundLocalError

  /** A character occurs in a string exactly when the one-character string does. */
  lemma CharContains(s: string, c: char)
    ensures c in s <==> Contains(s, [c])
    ensures (forall k :: !OccursAt(s, [c], k)) ==> c !in s
  {
    ContainsSpec(s, [c]);
    if c in s {
      var i :| 0 <= i < |s| && s[i] == c;
      assert OccursAt(s, [c], i);
    }
    if Contains(s, [c]) {
      var k :| OccursAt(s, [c], k);
      assert s[k] == s[k..k + 1][0];
    }
  }

  /** `identifier.split("/")[-1]`: the text after the last slash. */
  function LastPathSegment(identifier: string): (id: string)
    ensures |id| <= |identifier| && identifier[|identifier| - |id|..] == id
    ensures '/' !in id
    ensures '/' !in identifier ==> id == identifier
    ensures '/' in identifier ==> identifier == identifier[..|identifier| - |id| - 1] + "/" + id
  {
    LastPieceSpec(identifier, "/");
    CharContains(identifier, '/');
    CharContains(LastPiece(identifier, "/"), '/');
    LastPiece(identifier, "/")
  }

  /** `title.split("week of ")[1].split(" ")[0]`, with None for the
      IndexError raised when the title has no date marker. */
  function DateToken(title: string): Option<string>
  {
    var parts := Split(title, WeekOf);
    if |parts| < 2 then None else Some(Split(parts[1], " ")[0])
  }

  /** The date token exists exactly when the title contains the marker. It
      is the text right after the first marker, holds no space and no start
      of a second marker, and ends at the end of the title, at a space, or
      where a second marker begins: the first of these. */
  lemma DateTokenSpec(title: string)
    ensures DateToken(title).None? <==> !Contains(title, WeekOf)
    ensures DateToken(title).Some? ==>
      var i := FindFrom(title, WeekOf, 0).value;
      var after := title[i + |WeekOf|..];
      var token := DateToken(title).value;
      |token| <= |after| && after[..|token|] == token && ' ' !in token &&
      (forall j :: 0 <= j < |token| ==> !OccursAt(after, WeekOf, j)) &&
      (|token| == |after| || after[|token|] == ' ' || OccursAt(after, WeekOf, |token|))
  {
    SplitCount(title, WeekOf);
    if Contains(title, WeekOf) {
      var i := FindFrom(title, WeekOf, 0).value;
      SecondPiece(title, WeekOf);
      TokenBounds(title[i + |WeekOf|..]);
    }
  }

  /** The first space-separated word of the text before the next marker
      holds no space and no start of a marker, and ends at the end of the
      text, at a space, or where a marker begins. */
  lemma TokenBounds(after: string)
    ensures |Split(after, WeekOf)| >= 1
    ensures var segment := Split(after, WeekOf)[0];
      |Split(segment, " ")| >= 1 &&
      var token := Split(segment, " ")[0];
      |token| <= |after| && after[..|token|] == token && ' ' !in token &&
      (forall j :: 0 <= j < |token| ==> !OccursAt(after, WeekOf, j)) &&
      (|token| == |after| || after[|token|] == ' ' || OccursAt(after, WeekOf, |token|))
  {
    FirstPieceSpec(after, WeekOf);
    var segment := Split(after, WeekOf)[0];
    FirstPieceSpec(segment, " ");
    var token := Split(segment, " ")[0];
    forall j | 0 <= j < |token| ensures token[j] != ' ' {
      assert !OccursAt(segment, " ", j);
      assert segment[j..j + 1] == [segment[j]];
    }
    if |token| < |segment| {
      assert OccursAt(segment, " ", |token|);
      assert segment[|token|..|token| + 1] == [segment[|token|]];
      assert after[|token|] == segment[|token|];
    }
  }

  /** The type a title names, testing "Exploration" before "Jams"; None
      when it names neither and `type` is left as it was. */
  function TitleKind(title: string): Option<PlaylistType>
  {
    if Contains(title, "Exploration") then Some(Exploration)
    else if Contains(title, "Jams") then Some(Jams)
    else None
  }

  predicate IsAccepted(e: Entry)
  {
    e.playlist.Some? && e.playlist.value.creator == Some(ListenBrainzCreator)
  }

  /** One iteration of the classifying loop on the descriptor of an entry
      created by ListenBrainz, where `prev` is the value `type` holds
      before it: the record appended, or the exception raised. */
  function ClassifyInfo(info: PlaylistInfo, prev: Option<PlaylistType>): Result<WeeklyPlaylist, Error>
  {
    match info.title
    case None => Failure(TypeError)
    case Some(title) =>
      var kind := if TitleKind(title).Some? then TitleKind(title) else prev;
      match DateToken(title)
      case None => Failure(IndexError)
      case Some(token) =>
        match ParseDate(token)
        case None => Failure(ValueError)
        case Some(date) =>
          match info.identifier
          case None => Failure(AttributeError)
          case Some(identifier) =>
            match kind
            case None => Failure(UnboundLocalError)
            case Some(k) => Success(WeeklyPlaylist(k, date, LastPathSegment(identifier)))
  }

  /** The loop over `entries` from a state where `type` holds `prev`. */
  function ClassifyEntries(entries: seq<Entry>, prev: Option<PlaylistType>): Result<seq<WeeklyPlaylist>, Error>
  {
    if entries == [] then Success([])
    else
      match entries[0].playlist
      case None => Failure(AttributeError)
      case Some(info) =>
        if info.creator != Some(ListenBrainzCreator) then ClassifyEntries(entries[1..], prev)
        else
          match ClassifyInfo(info, prev)
          case Failure(err) => Failure(err)
          case Success(rec) =>
            match ClassifyEntries(entries[1..], Some(rec.kind))
            case Failure(err) => Failure(err)
            case Success(recs) => Success([rec] + recs)
  }

  /** `get_listenbrainz_playlists` on the reply of the listing request. */
  function Classify(reply: Reply<Listing>): Result<seq<WeeklyPlaylist>, Error>
  {
    match reply
    case RequestFailed => Failure(AttributeError)
    case Decoded(listing) =>
      match listing.playlists
      case None => Failure(TypeError)
      case Some(entries) => ClassifyEntries(entries, None)
  }

  /** Records already appended, followed by those of the rest of the loop. */
  function Prepend(done: seq<WeeklyPlaylist>, rest: Result<seq<WeeklyPlaylist>, Error>): Result<seq<WeeklyPlaylist>, Error>
  {
    match rest
    case Success(recs) => Success(done + recs)
    case Failure(err) => Failure(err)
  }

  lemma PrependFacts(done: seq<WeeklyPlaylist>, more: seq<WeeklyPlaylist>, rest: Result<seq<WeeklyPlaylist>, Error>)
    ensures Prepend([], rest) == rest
    ensures Prepend(done, Prepend(more, rest)) == Prepend(done + more, rest)
    ensures Prepend(done, Success([])) == Success(done)
  {
    assert done + [] == done;
    match rest
    case Success(recs) =>
      assert [] + recs == recs;
      assert done + (more + recs) == (done + more) + recs;
    case Failure(_) =>
  }

  /** `get_listenbrainz_playlists`, once the listing has been fetched. */
  method GetListenBrainzPlaylists(reply: Reply<Listing>) returns (r: Result<seq<WeeklyPlaylist>, Error>)
    ensures r == Classify(reply)
  {
    if reply.RequestFailed? {
      return Failure(AttributeError);
    }
    var playlists := reply.body.playlists;
    if playlists.None? {
      return Failure(TypeError);
    }
    var entries := playlists.value;
    var found: seq<WeeklyPlaylist> := [];
    var kind: Option<PlaylistType> := None;
    var i := 0;
    assert entries[i..] == entries;
    PrependFacts([], [], ClassifyEntries(entries, kind));
    while i < |entries|
      invariant 0 <= i <= |entries|
      invariant Classify(reply) == Prepend(found, ClassifyEntries(entries[i..], kind))
    {
      assert entries[i..][0] == entries[i] && entries[i..][1..] == entries[i + 1..];
      var info := entries[i].playlist;
      if info.None? {
        return Failure(AttributeError);
      }
      if info.value.creator == Some(ListenBrainzCreator) {
        ghost var prev := kind;
        var title := info.value.title;
        if title.None? {
          return Failure(TypeError);
        }
        if Contains(title.value, "Exploration") {
          kind := Some(Exploration);
        } else if Contains(title.value, "Jams") {
          kind := Some(Jams);
        }
        var parts := Split(title.value, WeekOf);
        if |parts| < 2 {
          return Failure(IndexError);
        }
        var date := ParseDate(Split(parts[1], " ")[0]);
        if date.None? {
          return Failure(ValueError);
        }
        var identifier := info.value.identifier;
        if identifier.None? {
          return Failure(AttributeError);
        }
        if kind.None? {
          return Failure(UnboundLocalError);
        }
        var rec := WeeklyPlaylist(kind.value, date.value, LastPathSegment(identifier.value));
        assert ClassifyInfo(info.value, prev) == Success(rec);
        assert ClassifyEntries(entries[i..], prev) == Prepend([rec], ClassifyEntries(entries[i + 1..], kind));
        PrependFacts(found, [rec], ClassifyEntries(entries[i + 1..], kind));
        found := found + [rec];
      }
      i := i + 1;
    }
    assert entries[i..] == [];
    PrependFacts(found, [], Success([]));
    return Success(found);
  }

  // A declarative account of what the classifying loop produces.

  /** The descriptors of the entries created by ListenBrainz, in input order. */
  function AcceptedInfos(entries: seq<Entry>): seq<PlaylistInfo>
  {
    if entries == [] then []
    else if IsAccepted(entries[0]) then [entries[0].playlist.value] + AcceptedInfos(entries[1..])
    else AcceptedInfos(entries[1..])
  }

  function TitleOf(info: PlaylistInfo): string
  {
    info.title.GetOr("")
  }

  predicate NamesKind(info: PlaylistInfo)
  {
    TitleKind(TitleOf(info)).Some?
  }

  /** The latest descriptor at or before `k` whose title names a type. */
  function LastNamingKind(infos: seq<PlaylistInfo>, k: nat): (r: Option<nat>)
    requires k < |infos|
    ensures r.Some? ==> r.value <= k
  {
    if NamesKind(infos[k]) then Some(k)
    else if k == 0 then None
    else LastNamingKind(infos, k - 1)
  }

  /** `LastNamingKind` finds the latest title at or before `k` that names
      a type, and finds none only when no such title exists. */
  lemma {:induction false} LastNamingKindSpec(infos: seq<PlaylistInfo>, k: nat)
    requires k < |infos|
    ensures var r := LastNamingKind(infos, k);
      (r.Some? ==> r.value <= k && NamesKind(infos[r.value])) &&
      (r.Some? ==> forall j :: r.value < j <= k ==> !NamesKind(infos[j])) &&
      (r.None? ==> forall j :: 0 <= j <= k ==> !NamesKind(infos[j]))
  {
    if !NamesKind(infos[k]) && k > 0 {
      LastNamingKindSpec(infos, k - 1);
    }
  }

  /** The value of `type` when descriptor `k` is recorded: the type named by
      the latest title naming one, or `prev` when none up to `k` does. */
  function KindAt(infos: seq<PlaylistInfo>, k: nat, prev: Option<PlaylistType>): Option<PlaylistType>
    requires k < |infos|
  {
    match LastNamingKind(infos, k)
    case Some(j) => TitleKind(TitleOf(infos[j]))
    case None => prev
  }

  /** The record a descriptor yields when `type` holds `kind`: present when
      the title has a date marker followed by a valid date, the identifier is
      present and `kind` is set. */
  function RecordOf(info: PlaylistInfo, kind: Option<PlaylistType>): Option<WeeklyPlaylist>
  {
    if info.title.Some? && info.identifier.Some? && kind.Some? then
      match DateToken(info.title.value)
      case None => None
      case Some(token) =>
        match ParseDate(token)
        case None => None
        case Some(date) => Some(WeeklyPlaylist(kind.value, date, LastPathSegment(info.identifier.value)))
    else None
  }

  /** The record descriptor `k` yields, if any. */
  function RecordAt(infos: seq<PlaylistInfo>, k: nat, prev: Option<PlaylistType>): Option<WeeklyPlaylist>
    requires k < |infos|
  {
    RecordOf(infos[k], KindAt(infos, k, prev))
  }

  predicate AllWrapped(entries: seq<Entry>)
  {
    forall e :: e in entries ==> e.playlist.Some?
  }

  /** The type carried into the descriptors after the first is the one the
      first is recorded with. */
  lemma {:induction false} LastNamingKindShift(info: PlaylistInfo, infos: seq<PlaylistInfo>, k: nat)
    requires k < |infos|
    ensures LastNamingKind([info] + infos, k + 1) ==
      match LastNamingKind(infos, k)
      case Some(j) => Some(j + 1)
      case None => if NamesKind(info) then Some(0) else None
  {
    var all := [info] + infos;
    assert all[k + 1] == infos[k];
    if k > 0 && !NamesKind(infos[k]) {
      LastNamingKindShift(info, infos, k - 1);
    } else if k == 0 && !NamesKind(infos[0]) {
      assert all[0] == info;
    }
  }

  lemma KindAtShift(info: PlaylistInfo, infos: seq<PlaylistInfo>, k: nat, prev: Option<PlaylistType>)
    requires k < |infos|
    ensures KindAt([info] + infos, k + 1, prev) == KindAt(infos, k, KindAt([info] + infos, 0, prev))
  {
    LastNamingKindShift(info, infos, k);
    match LastNamingKind(infos, k)
    case Some(j) =>
      assert ([info] + infos)[j + 1] == infos[j];
    case None =>
  }

  /** The records of all descriptors, in order, for any way `f` of making a
      descriptor's record from the value of `type`. */
  function RecordsWith(f: (PlaylistInfo, Option<PlaylistType>) -> Option<WeeklyPlaylist>,
                       infos: seq<PlaylistInfo>, prev: Option<PlaylistType>): seq<Option<WeeklyPlaylist>>
  {
    seq(|infos|, k requires 0 <= k < |infos| => f(infos[k], KindAt(infos, k, prev)))
  }

  /** The records of a successful call, each wrapped in `Some`. */
  function Somes(recs: seq<WeeklyPlaylist>): seq<Option<WeeklyPlaylist>>
  {
    seq(|recs|, k requires 0 <= k < |recs| => Some(recs[k]))
  }

  /** The records after the first descriptor are those of the rest once the
      first has set `type`. */
  lemma RecordsShift(f: (PlaylistInfo, Option<PlaylistType>) -> Option<WeeklyPlaylist>,
                     info: PlaylistInfo, infos: seq<PlaylistInfo>, prev: Option<PlaylistType>)
    ensures var p := KindAt([info] + infos, 0, prev);
      RecordsWith(f, [info] + infos, prev) == [f(info, p)] + RecordsWith(f, infos, p)
  {
    var all := [info] + infos;
    var p := KindAt(all, 0, prev);
    assert all[0] == info;
    forall k | 0 < k < |all| ensures RecordsWith(f, all, prev)[k] == RecordsWith(f, infos, p)[k - 1] {
      KindAtShift(info, infos, k - 1, prev);
      assert all[k] == infos[k - 1];
    }
  }

  /** One iteration on the first descriptor succeeds exactly when the
      descriptor yields a record, returns that record, and leaves `type` as
      the record's type. */
  lemma ClassifyInfoSpec(info: PlaylistInfo, infos: seq<PlaylistInfo>, prev: Option<PlaylistType>)
    ensures var p := KindAt([info] + infos, 0, prev);
      ClassifyInfo(info, prev).Success? == RecordOf(info, p).Some? &&
      (ClassifyInfo(info, prev).Success? ==>
        RecordOf(info, p) == Some(ClassifyInfo(info, prev).value) &&
        p == Some(ClassifyInfo(info, prev).value.kind))
  {
    assert ([info] + infos)[0] == info;
  }

  /** The loop from a state where `type` holds `prev` succeeds exactly when
      every entry wraps a descriptor and every descriptor created by
      ListenBrainz yields a record; it then returns those records, in order. */
  ghost predicate ClassifiesAsSpecified(entries: seq<Entry>, prev: Option<PlaylistType>)
  {
    var records := RecordsWith(RecordOf, AcceptedInfos(entries), prev);
    var r := ClassifyEntries(entries, prev);
    && (r.Success? <==> AllWrapped(entries) && None !in records)
    && (r.Success? ==> records == Somes(r.value))
  }

  lemma {:induction false} ClassifyEntriesSpec(entries: seq<Entry>, prev: Option<PlaylistType>)
    ensures ClassifiesAsSpecified(entries, prev)
  {
    if entries != [] {
      var rest := entries[1..];
      assert entries == [entries[0]] + rest;
      assert AllWrapped(entries) <==> entries[0].playlist.Some? && AllWrapped(rest);
      if entries[0].playlist.Some? {
        var info := entries[0].playlist.value;
        var infos := AcceptedInfos(rest);
        if info.creator != Some(ListenBrainzCreator) {
          ClassifyEntriesSpec(rest, prev);
        } else {
          var all := [info] + infos;
          assert AcceptedInfos(entries) == all;
          ClassifyInfoSpec(info, infos, prev);
          RecordsShift(RecordOf, info, infos, prev);
          if ClassifyInfo(info, prev).Success? {
            var rec := ClassifyInfo(info, prev).value;
            ClassifyEntriesSpec(rest, Some(rec.kind));
            AcceptedUnfold(entries, prev);
            ConsRecords(rec, RecordsWith(RecordOf, infos, Some(rec.kind)), ClassifyEntries(rest, Some(rec.kind)), AllWrapped(rest));
          } else {
            assert RecordsWith(RecordOf, all, prev)[0].None?;
          }
        }
      }
    }
  }

  /** The loop at an entry created by ListenBrainz whose iteration succeeds
      appends that record, then continues with `type` set to its type. */
  lemma AcceptedUnfold(entries: seq<Entry>, prev: Option<PlaylistType>)
    requires entries != [] && IsAccepted(entries[0])
    requires ClassifyInfo(entries[0].playlist.value, prev).Success?
    ensures var rec := ClassifyInfo(entries[0].playlist.value, prev).value;
      ClassifyEntries(entries, prev) == Prepend([rec], ClassifyEntries(entries[1..], Some(rec.kind)))
  {
  }

  /** Putting a record in front keeps the correspondence between the loop's
      outcome and the records of the descriptors. */
  lemma ConsRecords(rec: WeeklyPlaylist, records: seq<Option<WeeklyPlaylist>>, rest: Result<seq<WeeklyPlaylist>, Error>, wrapped: bool)
    requires rest.Success? <==> wrapped && None !in records
    requires rest.Success? ==> records == Somes(rest.value)
    ensures Prepend([rec], rest).Success? <==> wrapped && None !in [Some(rec)] + records
    ensures Prepend([rec], rest).Success? ==> [Some(rec)] + records == Somes(Prepend([rec], rest).value)
  {
    if rest.Success? {
      assert [Some(rec)] + records == Somes([rec] + rest.value);
    }
  }

  /** The entries of a listing reply, or none when it has no entry array. */
  function EntriesOf(reply: Reply<Listing>): seq<Entry>
  {
    if reply.Decoded? && reply.body.playlists.Some? then reply.body.playlists.value else []
  }

  /** `get_listenbrainz_playlists` returns a list exactly when the reply has
      a `playlists` array, every entry wraps a descriptor, and every
      descriptor created by ListenBrainz yields a record; the list then holds
      one record per such descriptor, in input order, and other entries add
      nothing. */
  lemma ClassifySpec(reply: Reply<Listing>)
    ensures var infos := AcceptedInfos(EntriesOf(reply));
      Classify(reply).Success? <==>
        reply.Decoded? && reply.body.playlists.Some? && AllWrapped(EntriesOf(reply)) &&
        forall k :: 0 <= k < |infos| ==> RecordAt(infos, k, None).Some?
    ensures var infos := AcceptedInfos(EntriesOf(reply));
      Classify(reply).Success? ==>
        |Classify(reply).value| == |infos| &&
        forall k :: 0 <= k < |infos| ==> RecordAt(infos, k, None) == Some(Classify(reply).value[k])
    ensures reply.RequestFailed? ==> Classify(reply) == Failure(AttributeError)
    ensures reply.Decoded? && reply.body.playlists.None? ==> Classify(reply) == Failure(TypeError)
  {
    match reply
    case RequestFailed =>
    case Decoded(listing) =>
      match listing.playlists
      case None =>
      case Some(entries) =>
        var infos := AcceptedInfos(entries);
        assert EntriesOf(reply) == entries;
        ClassifyEntriesSpec(entries, None);
        var records := RecordsWith(RecordOf, infos, None);
        assert forall k :: 0 <= k < |infos| ==> records[k] == RecordAt(infos, k, None);
        if Classify(reply).Success? {
          assert records == Somes(Classify(reply).value);
        } else if AllWrapped(entries) {
          var k :| 0 <= k < |infos| && records[k] == None;
          assert RecordAt(AcceptedInfos(EntriesOf(reply)), k, None).None?;
        }
  }

  /** Each record's fields: the type is "Exploration" when its title
      contains that word, "Jams" when it contains only "Jams", and otherwise
      the type of the record before it (the first record always has a title
      naming its type); the date is the title's date token parsed; the
      identifier is the last segment of the descriptor's identifier. */
  lemma RecordFields(reply: Reply<Listing>, k: nat)
    requires Classify(reply).Success? && k < |Classify(reply).value|
    ensures |AcceptedInfos(EntriesOf(reply))| == |Classify(reply).value|
    ensures var info := AcceptedInfos(EntriesOf(reply))[k];
      info.title.Some? && DateToken(info.title.value).Some? && info.identifier.Some?
    ensures var info := AcceptedInfos(EntriesOf(reply))[k];
      var title := info.title.value;
      var rec := Classify(reply).value[k];
      && (Contains(title, "Exploration") ==> rec.kind == Exploration)
      && (!Contains(title, "Exploration") && Contains(title, "Jams") ==> rec.kind == Jams)
      && (!Contains(title, "Exploration") && !Contains(title, "Jams") ==>
            k > 0 && rec.kind == Classify(reply).value[k - 1].kind)
      && Some(rec.date) == ParseDate(DateToken(title).value)
      && rec.identifier == LastPathSegment(info.identifier.value)
  {
    ClassifySpec(reply);
    var infos := AcceptedInfos(EntriesOf(reply));
    var recs := Classify(reply).value;
    assert RecordAt(infos, k, None) == Some(recs[k]);
    if !NamesKind(infos[k]) {
      assert k > 0;
      assert RecordAt(infos, k - 1, None) == Some(recs[k - 1]);
      assert KindAt(infos, k, None) == KindAt(infos, k - 1, None);
    }
  }

  /** An entry wrapping a descriptor whose creator is not ListenBrainz
      changes nothing, wherever it stands. */
  lemma {:induction false} ForeignEntrySkipped(before: seq<Entry>, e: Entry, after: seq<Entry>, prev: Option<PlaylistType>)
    requires e.playlist.Some? && !IsAccepted(e)
    ensures ClassifyEntries(before + [e] + after, prev) == ClassifyEntries(before + after, prev)
    decreases |before|
  {
    var with, without := before + [e] + after, before + after;
    if before == [] {
      assert with[0] == e && with[1..] == after && without == after;
    } else {
      assert with[0] == without[0] == before[0];
      assert with[1..] == before[1..] + [e] + after;
      assert without[1..] == before[1..] + after;
      match before[0].playlist
      case None =>
      case Some(info) =>
        if info.creator != Some(ListenBrainzCreator) {
          ForeignEntrySkipped(before[1..], e, after, prev);
        } else {
          match ClassifyInfo(info, prev)
          case Failure(_) =>
          case Success(rec) =>
            ForeignEntrySkipped(before[1..], e, after, Some(rec.kind));
        }
    }
  }

  /** Adding or removing an entry not created by ListenBrainz leaves the
      outcome of `get_listenbrainz_playlists` unchanged. */
  lemma ForeignEntryIgnored(before: seq<Entry>, e: Entry, after: seq<Entry>)
    requires e.playlist.Some? && !IsAccepted(e)
    ensures Classify(Decoded(Listing(Some(before + [e] + after)))) == Classify(Decoded(Listing(Some(before + after))))
  {
    ForeignEntrySkipped(before, e, after, None);
  }

  lemma {:induction false} ForeignPrefixSkipped(before: seq<Entry>, rest: seq<Entry>, prev: Option<PlaylistType>)
    requires forall e :: e in before ==> e.playlist.Some? && !IsAccepted(e)
    ensures ClassifyEntries(before + rest, prev) == ClassifyEntries(rest, prev)
    decreases |before|
  {
    if before != [] {
      var all := before + rest;
      assert before[0] in before;
      assert all[0] == before[0];
      assert all[1..] == before[1..] + rest;
      ForeignPrefixSkipped(before[1..], rest, prev);
    } else {
      assert before + rest == rest;
    }
  }

  /** The first descriptor created by ListenBrainz aborts the call, rather
      than being skipped, with the first exception its iteration meets:
      no title, no date marker, an invalid date, no identifier, and a title
      naming no type while `type` is still unassigned. */
  lemma FirstAcceptedFailures(before: seq<Entry>, info: PlaylistInfo, after: seq<Entry>)
    requires forall e :: e in before ==> e.playlist.Some? && !IsAccepted(e)
    requires info.creator == Some(ListenBrainzCreator)
    ensures var r := Classify(Decoded(Listing(Some(before + [Entry(Some(info))] + after))));
      match info.title
      case None => r == Failure(TypeError)
      case Some(title) =>
        if !Contains(title, WeekOf) then r == Failure(IndexError)
        else match DateToken(title)
          case None => false
          case Some(token) =>
            if ParseDate(token).None? then r == Failure(ValueError)
            else if info.identifier.None? then r == Failure(AttributeError)
            else if !Contains(title, "Exploration") && !Contains(title, "Jams") then r == Failure(UnboundLocalError)
            else r.Success? ==> |r.value| > 0
  {
    var rest := [Entry(Some(info))] + after;
    assert before + [Entry(Some(info))] + after == before + rest;
    ForeignPrefixSkipped(before, rest, None);
    assert rest[0] == Entry(Some(info)) && rest[1..] == after;
    if info.title.Some? {
      DateTokenSpec(info.title.value);
    }
  }

  // The tracks of a playlist.

  /** The reply carries a `playlist` object with a `track` array. */
  predicate HasTrackArray(reply: Reply<PlaylistDoc>)
  {
    reply.Decoded? && reply.body.playlist.Some? && reply.body.playlist.value.track.Some?
  }

  function TracksOf(reply: Reply<PlaylistDoc>): seq<Track>
    requires HasTrackArray(reply)
  {
    reply.body.playlist.value.track.value
  }

  /** `get_tracks_from_playlist`: one record per track, in order, with the
      artist and title copied and the identifier cut to its last segment.
      It fails with AttributeError when the reply or its `playlist` object
      is missing or a track has no identifier, and with TypeError when the
      `track` array is missing. */
  method GetTracksFromPlaylist(reply: Reply<PlaylistDoc>) returns (r: Result<seq<TrackRecord>, Error>)
    ensures r.Success? <==> HasTrackArray(reply) && forall t :: t in TracksOf(reply) ==> t.identifier.Some?
    ensures r.Failure? ==> r.error == (if reply.Decoded? && reply.body.playlist.Some? && reply.body.playlist.value.track.None?
                                       then TypeError else AttributeError)
    ensures r.Success? ==>
      var tracks := TracksOf(reply);
      |r.value| == |tracks| &&
      forall k :: 0 <= k < |tracks| ==>
        r.value[k] == TrackRecord(tracks[k].creator, LastPathSegment(tracks[k].identifier.value), tracks[k].title)
  {
    if reply.RequestFailed? || reply.body.playlist.None? {
      return Failure(AttributeError);
    }
    var trackArray := reply.body.playlist.value.track;
    if trackArray.None? {
      return Failure(TypeError);
    }
    var tracks := trackArray.value;
    var records: seq<TrackRecord> := [];
    for i := 0 to |tracks|
      invariant |records| == i
      invariant forall k :: 0 <= k < i ==> tracks[k].identifier.Some?
      invariant forall k :: 0 <= k < i ==>
        records[k] == TrackRecord(tracks[k].creator, LastPathSegment(tracks[k].identifier.value), tracks[k].title)
    {
      var track := tracks[i];
      if track.identifier.None? {
        return Failure(AttributeError);
      }
      records := records + [TrackRecord(track.creator, LastPathSegment(track.identifier.value), track.title)];
    }
    return Success(records);
  }
}
