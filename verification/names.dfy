/**
 * The display-name rule that every track query applies to a row of the
 * tracks LEFT JOIN musicians LEFT JOIN ensembles query: a musician's name is
 * "first last" with surrounding white space removed (Go's
 * `strings.TrimSpace`), an ensemble's name is the stored name, and each has a
 * fallback for when the join found no row.
 */
module Names {

  import opened Rows
  import opened Models

  /** `unicode.IsSpace`: the Latin-1 white space plus the Unicode White_Space characters. */
  predicate IsSpace(c: char) {
    || c == ' ' || c == '\t' || c == '\n' || c == '\U{000B}' || c == '\U{000C}' || c == '\r'
    || c == '\U{0085}' || c == '\U{00A0}' || c == '\U{1680}'
    || ('\U{2000}' <= c <= '\U{200A}')
    || c == '\U{2028}' || c == '\U{2029}' || c == '\U{202F}' || c == '\U{205F}' || c == '\U{3000}'
  }

  /** `s` neither starts nor ends with white space. */
  predicate Trimmed(s: string) {
    s == [] || (!IsSpace(s[0]) && !IsSpace(s[|s| - 1]))
  }

  /** `s` with its leading white space removed. */
  function TrimLeft(s: string): (r: string)
    ensures |r| <= |s| && r == s[|s| - |r|..]
    ensures forall i :: 0 <= i < |s| - |r| ==> IsSpace(s[i])
    ensures r != [] ==> !IsSpace(r[0])
  {
    if s != [] && IsSpace(s[0]) then TrimLeft(s[1..]) else s
  }

  /** `s` with its trailing white space removed. */
  function TrimRight(s: string): (r: string)
    ensures |r| <= |s| && r == s[..|r|]
    ensures forall i :: |r| <= i < |s| ==> IsSpace(s[i])
    ensures r != [] ==> !IsSpace(r[|r| - 1])
  {
    if s != [] && IsSpace(s[|s| - 1]) then TrimRight(s[..|s| - 1]) else s
  }

  /**
   * `strings.TrimSpace`: the part of `s` between its leading and its trailing
   * white space; a string that is already trimmed comes back unchanged.
   */
  function TrimSpace(s: string): (r: string)
    ensures Trimmed(r) && |r| <= |s|
    ensures Trimmed(s) ==> r == s
  {
    TrimRight(TrimLeft(s))
  }

  /**
   * What `TrimSpace` keeps is a slice of `s`: everything before it and after
   * it is white space.
   */
  lemma TrimSpaceKeepsMiddle(s: string)
    ensures exists i, j ::
              && 0 <= i <= j <= |s| && TrimSpace(s) == s[i..j]
              && (forall k :: 0 <= k < i ==> IsSpace(s[k]))
              && (forall k :: j <= k < |s| ==> IsSpace(s[k]))
  {
    var i := |s| - |TrimLeft(s)|;
    var j := i + |TrimSpace(s)|;
    TrimSpaceSlice(s);
    TrimSpaceTailBlank(s);
    assert forall k :: 0 <= k < i ==> IsSpace(s[k]);
  }

  /** `TrimSpace(s)` starts where `TrimLeft` cut `s`. */
  lemma TrimSpaceSlice(s: string)
    ensures var i := |s| - |TrimLeft(s)|;
      i + |TrimSpace(s)| <= |s| && TrimSpace(s) == s[i..i + |TrimSpace(s)|]
  {
    SliceOfSuffix(s, TrimLeft(s), TrimSpace(s));
  }

  /** A prefix of a suffix of `s` is a slice of `s`. */
  lemma SliceOfSuffix<T>(s: seq<T>, l: seq<T>, r: seq<T>)
    requires |l| <= |s| && l == s[|s| - |l|..]
    requires |r| <= |l| && r == l[..|r|]
    ensures r == s[|s| - |l|..|s| - |l| + |r|]
  {
  }

  /** After `TrimSpace(s)` only white space follows in `s`. */
  lemma TrimSpaceTailBlank(s: string)
    ensures forall k :: |s| - |TrimLeft(s)| + |TrimSpace(s)| <= k < |s| ==> IsSpace(s[k])
  {
    var l := TrimLeft(s);
    var r := TrimRight(l);
    var i := |s| - |l|;
    forall k | i + |r| <= k < |s| ensures IsSpace(s[k]) {
      assert s[k] == l[k - i];
    }
  }

  lemma TrimSpaceIdempotent(s: string)
    ensures TrimSpace(TrimSpace(s)) == TrimSpace(s)
  {
  }

  /** A string made of white space only trims to the empty string. */
  lemma {:induction false} TrimSpaceOfBlank(s: string)
    requires forall i :: 0 <= i < |s| ==> IsSpace(s[i])
    ensures TrimLeft(s) == [] && TrimSpace(s) == []
  {
    if s != [] {
      TrimSpaceOfBlank(s[1..]);
    }
  }

  /** Leading white space before a string that is not blank goes; the rest is kept. */
  lemma {:induction false} TrimLeftAppend(x: string, y: string)
    requires exists i :: 0 <= i < |x| && !IsSpace(x[i])
    ensures TrimLeft(x + y) == TrimLeft(x) + y
  {
    if IsSpace(x[0]) {
      var i :| 0 <= i < |x| && !IsSpace(x[i]);
      assert x[1..][i - 1] == x[i];
      assert (x + y)[1..] == x[1..] + y;
      TrimLeftAppend(x[1..], y);
    }
  }

  /** A blank prefix is trimmed away entirely. */
  lemma {:induction false} TrimLeftBlankPrefix(x: string, y: string)
    requires forall i :: 0 <= i < |x| ==> IsSpace(x[i])
    ensures TrimLeft(x + y) == TrimLeft(y)
  {
    if x != [] {
      assert (x + y)[0] == x[0] && (x + y)[1..] == x[1..] + y;
      TrimLeftBlankPrefix(x[1..], y);
    } else {
      assert x + y == y;
    }
  }

  /** `sql.NullString.String`: the value, or "" for NULL. */
  function OrEmpty(s: Option<string>): (r: string)
    ensures s.Some? ==> r == s.value
    ensures s.None? ==> r == ""
  {
    if s.Some? then s.value else ""
  }

  const UnknownMusician: string := "Unknown Musician"
  const UnknownEnsemble: string := "Unknown Ensemble"

  /**
   * The name shown for a musician's track: when the join produced either
   * name part, "first last" trimmed; when it produced neither, the fallback.
   */
  function MusicianName(first: Option<string>, last: Option<string>): (name: string)
    ensures Trimmed(name)
    ensures first.None? && last.None? ==> name == UnknownMusician
  {
    if first.Some? || last.Some? then TrimSpace(OrEmpty(first) + " " + OrEmpty(last))
    else UnknownMusician
  }

  /** Two trimmed, non-empty name parts are shown as "first last". */
  lemma MusicianNameJoinsParts(f: string, l: string)
    requires f != [] && l != [] && Trimmed(f) && Trimmed(l)
    ensures MusicianName(Some(f), Some(l)) == f + " " + l
  {
    var s := f + " " + l;
    assert s[0] == f[0] && s[|s| - 1] == l[|l| - 1];
  }

  /** With the last name NULL, the first name alone is shown, trimmed. */
  lemma MusicianNameFirstOnly(f: string)
    ensures MusicianName(Some(f), None) == TrimSpace(f)
  {
    var s := f + " " + "";
    assert MusicianName(Some(f), None) == TrimSpace(s);
    assert s == f + [' '];
    TrimSpaceOfSpaceTail(f);
  }

  /** One trailing blank does not change what `TrimSpace` keeps. */
  lemma TrimSpaceOfSpaceTail(f: string)
    ensures TrimSpace(f + [' ']) == TrimSpace(f)
  {
    if i :| 0 <= i < |f| && !IsSpace(f[i]) {
      TrimLeftAppend(f, [' ']);
      TrimRightOfSpaceTail(TrimLeft(f));
    } else {
      TrimSpaceOfBlank(f);
      TrimLeftBlankPrefix(f, [' ']);
      assert TrimLeft([' ']) == TrimLeft([]);
    }
  }

  /** A trailing blank is the first thing `TrimRight` removes. */
  lemma TrimRightOfSpaceTail(l: string)
    ensures TrimRight(l + [' ']) == TrimRight(l)
  {
    var t := l + [' '];
    assert IsSpace(t[|t| - 1]);
    assert t[..|t| - 1] == l;
  }

  /** With the first name NULL, the last name alone is shown, trimmed. */
  lemma MusicianNameLastOnly(f: string)
    ensures MusicianName(None, Some(f)) == TrimSpace(f)
  {
    var s := "" + " " + f;
    assert s[0] == ' ' && s[1..] == f;
    assert TrimLeft(s) == TrimLeft(f);
  }

  /** The name shown for an ensemble's track: the stored name, or the fallback. */
  function EnsembleName(name: Option<string>): (r: string)
    ensures name.Some? ==> r == name.value
    ensures name.None? ==> r == UnknownEnsemble
  {
    if name.Some? then name.value else UnknownEnsemble
  }

  /**
   * One scanned row of the tracks query turned into a response track: the
   * owner ids are copied, and a display name is filled in only for the owner
   * the row has (the other one stays "").
   */
  function ResolveTrack(row: TrackJoinRow): (t: Track)
    ensures t.id == row.track.id && t.name == row.track.name && t.duration == row.track.duration
    ensures t.musicianId == row.track.musicianId && t.ensembleId == row.track.ensembleId
    ensures row.track.musicianId.None? ==> t.musicianName == ""
    ensures row.track.musicianId.Some? ==>
      t.musicianName == MusicianName(row.musicianFirstName, row.musicianLastName)
    ensures row.track.ensembleId.None? ==> t.ensembleName == ""
    ensures row.track.ensembleId.Some? ==> t.ensembleName == EnsembleName(row.ensembleName)
  {
    Track(
      row.track.id, row.track.name, row.track.duration,
      row.track.musicianId, row.track.ensembleId,
      if row.track.musicianId.Some? then MusicianName(row.musicianFirstName, row.musicianLastName) else "",
      if row.track.ensembleId.Some? then EnsembleName(row.ensembleName) else "")
  }
}
