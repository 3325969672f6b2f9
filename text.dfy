/** The Python string operations the plugin relies on: `sub in s`,
    `s.split(sep)` and its first and last pieces. */
module Text {
  import opened Wrappers

  /** `sub` occurs in `s` starting at index `i`. */
  predicate OccursAt(s: string, sub: string, i: int)
  {
    0 <= i && i + |sub| <= |s| && s[i..i + |sub|] == sub
  }

  /** The least index at or after `from` where `sub` occurs in `s`
      (Python's `s.find(sub, from)`, with None for -1). */
  function FindFrom(s: string, sub: string, from: nat): (r: Option<nat>)
    decreases |s| - from
    ensures r.Some? ==> from <= r.value && r.value + |sub| <= |s|
  {
    if from + |sub| > |s| then None
    else if s[from..from + |sub|] == sub then Some(from)
    else FindFrom(s, sub, from + 1)
  }

  /** `FindFrom` returns an occurrence with none before it, and returns
      None only when there is no occurrence at all from `from` on. */
  lemma {:induction false} FindFromSpec(s: string, sub: string, from: nat)
    ensures var r := FindFrom(s, sub, from);
      (r.Some? ==> from <= r.value && OccursAt(s, sub, r.value)) &&
      (r.Some? ==> forall k :: from <= k < r.value ==> !OccursAt(s, sub, k)) &&
      (r.None? ==> forall k :: from <= k ==> !OccursAt(s, sub, k))
    decreases |s| - from
  {
    if from + |sub| <= |s| && s[from..from + |sub|] != sub {
      FindFromSpec(s, sub, from + 1);
    }
  }

  /** Python's `sub in s`. */
  function Contains(s: string, sub: string): bool
  {
    FindFrom(s, sub, 0).Some?
  }

  /** `sub in s` holds exactly when `sub` occurs somewhere in `s`. */
  lemma ContainsSpec(s: string, sub: string)
    ensures Contains(s, sub) <==> exists k :: OccursAt(s, sub, k)
  {
    FindFromSpec(s, sub, 0);
  }

  /** Python's `s.split(sep)` for a non-empty separator: the pieces between
      the non-overlapping occurrences of `sep`, found from the left. */
  function Split(s: string, sep: string): (parts: seq<string>)
    requires |sep| > 0
    decreases |s|
  {
    match FindFrom(s, sep, 0)
    case None => [s]
    case Some(i) => [s[..i]] + Split(s[i + |sep|..], sep)
  }

  /** Python's `sep.join(parts)`. */
  function Join(parts: seq<string>, sep: string): string
  {
    if |parts| <= 1 then (if parts == [] then "" else parts[0])
    else parts[0] + sep + Join(parts[1..], sep)
  }

  /** Joining the pieces with the separator gives back the string, there
      is always at least one piece, and no piece contains the separator. */
  lemma SplitJoin(s: string, sep: string)
    requires |sep| > 0
    ensures |Split(s, sep)| >= 1
    ensures Join(Split(s, sep), sep) == s
    ensures forall p, k :: p in Split(s, sep) ==> !OccursAt(p, sep, k)
  {
    SplitRejoins(s, sep);
    SplitPiecesAvoid(s, sep);
  }

  lemma {:induction false} SplitRejoins(s: string, sep: string)
    requires |sep| > 0
    ensures |Split(s, sep)| >= 1
    ensures Join(Split(s, sep), sep) == s
    decreases |s|
  {
    match FindFrom(s, sep, 0)
    case None =>
    case Some(i) =>
      FindFromSpec(s, sep, 0);
      var t := s[i + |sep|..];
      var parts := Split(s, sep);
      SplitRejoins(t, sep);
      assert parts == [s[..i]] + Split(t, sep);
      assert parts[0] == s[..i] && parts[1..] == Split(t, sep);
      assert Join(parts, sep) == s[..i] + sep + Join(Split(t, sep), sep);
      assert s[i..i + |sep|] == sep;
      assert s == s[..i] + s[i..i + |sep|] + t;
  }

  lemma {:induction false} SplitPiecesAvoid(s: string, sep: string)
    requires |sep| > 0
    ensures forall p, k :: p in Split(s, sep) ==> !OccursAt(p, sep, k)
    decreases |s|
  {
    FindFromSpec(s, sep, 0);
    match FindFrom(s, sep, 0)
    case None =>
    case Some(i) =>
      var t := s[i + |sep|..];
      SplitPiecesAvoid(t, sep);
      assert Split(s, sep) == [s[..i]] + Split(t, sep);
      forall p, k | p in Split(s, sep) ensures !OccursAt(p, sep, k) {
        if p == s[..i] {
          PrefixOccurrence(s, sep, i, k);
        }
      }
  }

  /** An occurrence inside a prefix is an occurrence in the whole string. */
  lemma PrefixOccurrence(s: string, sub: string, i: nat, k: int)
    requires i <= |s|
    ensures OccursAt(s[..i], sub, k) ==> OccursAt(s, sub, k) && k + |sub| <= i
  {
    if OccursAt(s[..i], sub, k) {
      assert s[..i][k..k + |sub|] == s[k..k + |sub|];
    }
  }

  /** `s` splits into more than one piece exactly when it contains `sep`. */
  lemma SplitCount(s: string, sep: string)
    requires |sep| > 0
    ensures |Split(s, sep)| > 1 <==> Contains(s, sep)
  {
    match FindFrom(s, sep, 0)
    case None =>
    case Some(i) =>
      SplitJoin(s[i + |sep|..], sep);
  }

  /** The first piece is the text before the first occurrence of `sep`, or
      the whole string when there is none. */
  lemma SplitHead(s: string, sep: string)
    requires |sep| > 0
    ensures var parts := Split(s, sep);
      |parts| >= 1 &&
      (match FindFrom(s, sep, 0)
       case None => parts[0] == s
       case Some(i) => parts[0] == s[..i])
  {
    SplitJoin(s, sep);
  }

  /** The first piece is a prefix of `s` in which no occurrence of `sep`
      starts, ending at the end of `s` or where the first occurrence
      starts. */
  lemma FirstPieceSpec(s: string, sep: string)
    requires |sep| > 0
    ensures |Split(s, sep)| >= 1
    ensures var p := Split(s, sep)[0];
      |p| <= |s| && s[..|p|] == p &&
      (forall j :: 0 <= j < |p| ==> !OccursAt(s, sep, j)) &&
      (|p| == |s| || OccursAt(s, sep, |p|))
  {
    FindFromSpec(s, sep, 0);
  }

  /** When `sep` occurs, the second piece is the first piece of the text
      after the first occurrence. */
  lemma SecondPiece(s: string, sep: string)
    requires |sep| > 0 && Contains(s, sep)
    ensures |Split(s, sep)| >= 2
    ensures var i := FindFrom(s, sep, 0).value;
      |Split(s[i + |sep|..], sep)| >= 1 && Split(s, sep)[1] == Split(s[i + |sep|..], sep)[0]
  {
    var i := FindFrom(s, sep, 0).value;
    SplitJoin(s[i + |sep|..], sep);
  }

  /** The last piece of `Split(s, sep)`, Python's `s.split(sep)[-1]`. */
  function LastPiece(s: string, sep: string): string
    requires |sep| > 0
  {
    var parts := Split(s, sep);
    parts[|parts| - 1]
  }

  /** The last piece is a suffix of `s` that contains no `sep`; it is all
      of `s` when `s` does not contain `sep`, and is preceded by `sep`
      otherwise. */
  lemma LastPieceSpec(s: string, sep: string)
    requires |sep| > 0
    ensures var last := LastPiece(s, sep);
      |last| <= |s| && s[|s| - |last|..] == last &&
      (forall k :: !OccursAt(last, sep, k)) &&
      (!Contains(s, sep) ==> last == s) &&
      (Contains(s, sep) ==> |last| + |sep| <= |s| && s[|s| - |last| - |sep|..|s| - |last|] == sep)
  {
    SplitJoin(s, sep);
    SplitCount(s, sep);
    var parts := Split(s, sep);
    var last := parts[|parts| - 1];
    assert last in parts;
    if |parts| > 1 {
      JoinLast(parts, sep);
      var front := Join(parts[..|parts| - 1], sep);
      assert s == front + sep + last;
      assert s[|s| - |last|..] == last;
      assert s[|s| - |last| - |sep|..|s| - |last|] == sep;
    }
  }

  /** Joining splits off the last part together with its separator. */
  lemma {:induction false} JoinLast(parts: seq<string>, sep: string)
    requires |parts| > 1
    ensures Join(parts, sep) == Join(parts[..|parts| - 1], sep) + sep + parts[|parts| - 1]
    decreases |parts|
  {
    if |parts| > 2 {
      var rest := parts[1..];
      JoinLast(rest, sep);
      assert parts[..|parts| - 1][1..] == rest[..|rest| - 1];
    }
  }
}
