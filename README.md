# beets-listenbrainz: weekly playlists and playlist tracks

This project models the data-handling core of the ListenBrainz plugin for
beets (`beetsplug/listenbrainz.py`). It proves properties of that model in
Dafny.

- `get_listenbrainz_playlists` takes the JSON reply to the "playlists created
  for a user" request. It keeps the entries whose playlist `creator` is
  `"listenbrainz"`, and for each one it derives three things:
  - a type: `"Exploration"`, or else `"Jams"`, or else the type of the
    previous record;
  - a date, from the token after `"week of "` in the title;
  - a short identifier, the last `/` segment of the playlist identifier.
- `get_tracks_from_playlist` turns a playlist reply into one record per
  track: the artist (the track's `creator`), the last segment of its
  identifier, and its title.

Python exceptions are part of the behaviour: a malformed reply aborts the
whole call. The model therefore returns `Result<…, Error>`, where `Error`
names the exception raised (`AttributeError`, `TypeError`, `IndexError`,
`ValueError`, `UnboundLocalError`).

Files:

- `wrappers.dfy`: `Option` and `Result`.
- `text.dfy`: the Python string operations used, i.e. `sub in s`,
  `s.split(sep)`, and its first and last pieces. Each is proved against a
  declarative description: first occurrence, rejoining, no separator inside
  a piece.
- `dates.dfy`: `datetime.strptime(token, "%Y-%m-%d").date()`, meaning four
  digits for the year, one or two digits for month and day, a space before a
  one-digit day, and calendar validity including leap years. The parser is
  proved to invert the ISO `YYYY-MM-DD` formatting, and the reverse. The
  value of every accepted token is stated too, including one-digit and
  space-padded fields.
- `listenbrainz.dfy`: the JSON shapes, the two plugin functions as loop
  methods, and a recursive specification `Classify` that the playlist loop is
  proved against. A declarative description of every record is proved equal
  to it: the record for the k-th ListenBrainz descriptor, with the type taken
  from the latest title at or before it that names one.

Three behaviours of the code are easy to misread. The model follows the code:

- A title naming neither "Exploration" nor "Jams" reuses the type of the
  previous record; there is no fallback type. On the first record it raises
  `UnboundLocalError`.
- An entry whose title has no "week of ", or whose date does not parse,
  aborts the whole call with `IndexError` or `ValueError`; it is not skipped.
- The records are returned as found. The code does not sort them, select
  the most recent playlist, or fetch tracks. A missing artist stays `None`,
  and an identifier is always a single string.

## Model

| member | source | states |
|---|---|---|
| ListenBrainz.GetListenBrainzPlaylists | beetsplug/listenbrainz.py:37-57 | the loop returns exactly `Classify(reply)`: the records in input order, or the first exception the Python iteration would raise |
| ListenBrainz.ClassifySpec | beetsplug/listenbrainz.py:38-57 | a failed request raises AttributeError and a missing `playlists` raises TypeError; otherwise the call succeeds iff every entry has a `playlist` object and every ListenBrainz descriptor yields a record, and then record k is the record of the k-th descriptor whose creator is "listenbrainz" (one per accepted entry, in order) |
| ListenBrainz.ClassifyInfoSpec | beetsplug/listenbrainz.py:45-55 | one descriptor succeeds exactly when the declarative record exists; its type becomes the type carried to the next descriptor |
| ListenBrainz.ClassifyEntriesSpec | beetsplug/listenbrainz.py:42-57 | for any carried type, the loop's result agrees with the declarative records of the accepted descriptors |
| ListenBrainz.RecordFields | beetsplug/listenbrainz.py:46-55 | a record's type is Exploration when its title contains "Exploration", Jams when it contains only "Jams", and otherwise the previous record's type (never for the first record); its date is the parsed date token; its identifier is the last path segment |
| ListenBrainz.ForeignEntryIgnored | beetsplug/listenbrainz.py:44 | inserting an entry whose creator is not "listenbrainz" anywhere in the listing leaves the outcome unchanged |
| ListenBrainz.ForeignEntrySkipped | beetsplug/listenbrainz.py:42-44 | the same, for any carried type |
| ListenBrainz.ForeignPrefixSkipped | beetsplug/listenbrainz.py:42-44 | a run of non-ListenBrainz entries before the rest of the listing changes nothing |
| ListenBrainz.FirstAcceptedFailures | beetsplug/listenbrainz.py:45-53 | the first ListenBrainz descriptor aborts the call with the exception met first in line order: no title gives TypeError, no "week of " gives IndexError, an invalid date gives ValueError, no identifier gives AttributeError, and a title naming no type gives UnboundLocalError |
| ListenBrainz.LastNamingKindSpec | beetsplug/listenbrainz.py:46-49 | the type in force at descriptor k comes from the latest title at or before k that names a type; there is none only if no such title exists |
| ListenBrainz.KindAtShift | beetsplug/listenbrainz.py:46-49 | the type in force after one descriptor equals the type computed from the rest with that descriptor's type carried in |
| ListenBrainz.DateTokenSpec | beetsplug/listenbrainz.py:50 | there is a token iff the title contains "week of "; the token is a prefix of the text after the first marker, contains no space and no start of a second "week of ", and ends at the end of the title, at a space, or at a second "week of ", so it ends at the first of these |
| ListenBrainz.TokenBounds | beetsplug/listenbrainz.py:50 | the first word of the text before the next "week of " is a prefix of the text, holds no space and no start of a marker, and ends at the end, at a space or at a marker |
| ListenBrainz.LastPathSegment | beetsplug/listenbrainz.py:53 | the short identifier is a suffix with no '/', equal to the identifier when it has no '/', and otherwise preceded by a '/' |
| ListenBrainz.CharContains | beetsplug/listenbrainz.py:53 | a one-character separator occurs iff the character is in the string |
| ListenBrainz.GetTracksFromPlaylist | beetsplug/listenbrainz.py:64-75 | success iff the reply has a `playlist` with a `track` array and every track has an identifier; then one record per track, in order, with the artist and title copied and the identifier cut to its last segment; otherwise TypeError for a missing `track` array and AttributeError for the rest |
| ListenBrainz.PrependFacts | beetsplug/listenbrainz.py:54-56 | appending records one by one and then finishing gives the same result as prepending them all at once |
| Dates.ParseDate | beetsplug/listenbrainz.py:51 | every date the parser accepts is a valid calendar date (year 1 to 9999, month 1 to 12, day within the month, leap years) |
| Dates.ParseFormat | beetsplug/listenbrainz.py:51 | every valid date, written as `YYYY-MM-DD`, parses back to itself |
| Dates.FormatParse | beetsplug/listenbrainz.py:51 | a ten-character token without spaces that parses is exactly the `YYYY-MM-DD` form of its date |
| Dates.ParsedFields | beetsplug/listenbrainz.py:51 | every accepted token is the year's four digits, a dash, a month field (one or two digits) and a dash, then a day field (one or two digits, or a space and a digit), and the fields' values are the date's |
| Dates.FieldsParse | beetsplug/listenbrainz.py:51 | conversely, four year digits, a month field and a day field joined by dashes parse to the date they name, and fail exactly when that day does not exist |
| Dates.FirstDash | beetsplug/listenbrainz.py:51 | the first dash after a run of digits is the one right after it, which is where the month field ends |
| Dates.PaddedValue | beetsplug/listenbrainz.py:51 | a zero-padded number reads back as that number |
| Dates.ValuePadded | beetsplug/listenbrainz.py:51 | a digit string is the zero-padded form of its value |
| Text.FindFromSpec | beetsplug/listenbrainz.py:46-53 | the search returns the first occurrence at or after the start, and returns none only if there is no occurrence |
| Text.ContainsSpec | beetsplug/listenbrainz.py:46-48 | `sub in s` holds iff `sub` occurs somewhere in `s` |
| Text.SplitJoin | beetsplug/listenbrainz.py:50 | `split` gives at least one piece, the pieces rejoin to the string, and no piece contains the separator |
| Text.SplitRejoins | beetsplug/listenbrainz.py:50 | the pieces rejoined with the separator give the string back |
| Text.SplitPiecesAvoid | beetsplug/listenbrainz.py:50 | no piece contains the separator |
| Text.SplitCount | beetsplug/listenbrainz.py:50 | there is more than one piece iff the separator occurs, so `[1]` raises IndexError exactly when it does not |
| Text.SplitHead | beetsplug/listenbrainz.py:50 | the first piece is the text before the first occurrence, or the whole string |
| Text.FirstPieceSpec | beetsplug/listenbrainz.py:50 | the first piece is a prefix in which no separator starts, ending at the end of the string or at the first separator |
| Text.SecondPiece | beetsplug/listenbrainz.py:50 | when the separator occurs, the second piece is the first piece of the text after its first occurrence |
| Text.LastPieceSpec | beetsplug/listenbrainz.py:53 | the last piece is a suffix without the separator; it is the whole string when the separator is absent, and otherwise follows the last separator |
| Text.JoinLast | beetsplug/listenbrainz.py:53 | joining splits off the last piece together with its separator |
| Text.PrefixOccurrence | beetsplug/listenbrainz.py:50 | an occurrence inside a prefix is an occurrence in the whole string |

## Left out

- The HTTP layer is not modelled: `_make_request`, `get_playlists_createdfor` and `get_playlist` (beetsplug/listenbrainz.py:19-35, 59-62). The reply is a parameter of the model: either a decoded JSON body or `RequestFailed`, which stands for the `[]` that `_make_request` returns on a request error. Calling `.get` on that list raises AttributeError, and the model says so.
- The constructor and configuration (token, username, authorisation header) are left out. They only feed the HTTP layer.
- The JSON values are assumed to have the expected types: strings, lists and objects. A field that is missing or `null` is modelled as `None`. A field of another type (a number where a string is expected, say) is not modelled.
- Dates.ParseDate: in `strptime`, the four digits of `%Y`, and the second digit of a `%d` field that starts with 1 or 2, may be any Unicode decimal digit (`\d`). The model accepts ASCII digits only. `%m` and the other `%d` forms take ASCII digits only, as modelled.
- Nothing is modelled about logging or the beets plugin machinery (`BeetsPlugin`, `data_source`).
