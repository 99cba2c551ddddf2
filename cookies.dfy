/**
 * `getCookies` of utils/getCookies.js: the `Cookie` request header split on
 * "; " into pieces, each piece split on "=" into a key and a value, the
 * pairs collected into a dictionary (a later key overwrites an earlier one),
 * and the value for one cookie name looked up. This is a loose reading of the
 * cookie-string grammar of section 4.2.1 of RFC 6265: no whitespace trimming,
 * no quoting, and a value ends at a second "=".
 */
module Cookies {
  import opened Wrappers

  const PairSeparator := "; "

  /** `sep` occurs in `s` at position `k`. */
  predicate OccursAt(s: string, sep: string, k: int)
  {
    0 <= k && k + |sep| <= |s| && s[k..k + |sep|] == sep
  }

  /**
   * JavaScript's `s.split(sep)` for a non-empty separator: the text between
   * the leftmost non-overlapping occurrences of `sep`.
   */
  function Split(s: string, sep: string): (r: seq<string>)
    requires |sep| > 0
    ensures |r| >= 1
    ensures |r[0]| <= |s| && r[0] == s[..|r[0]|]
    decreases |s|
  {
    if |s| < |sep| then [s]
    else if s[..|sep|] == sep then [""] + Split(s[|sep|..], sep)
    else
      var rest := Split(s[1..], sep);
      [[s[0]] + rest[0]] + rest[1..]
  }

  /** `pieces.join(sep)` */
  function Join(pieces: seq<string>, sep: string): string
    requires |pieces| >= 1
  {
    if |pieces| == 1 then pieces[0] else pieces[0] + sep + Join(pieces[1..], sep)
  }

  /** A character put in front of the first piece ends up in front of the joined text. */
  lemma JoinPrefixFirst(c: char, pieces: seq<string>, sep: string)
    requires |pieces| >= 1
    ensures Join([[c] + pieces[0]] + pieces[1..], sep) == [c] + Join(pieces, sep)
  {
    var r := [[c] + pieces[0]] + pieces[1..];
    if |pieces| > 1 {
      assert r[1..] == pieces[1..];
    }
  }

  /** Joining the pieces with the separator gives the original text back. */
  lemma {:induction false} SplitJoin(s: string, sep: string)
    requires |sep| > 0
    ensures Join(Split(s, sep), sep) == s
    decreases |s|
  {
    if |s| < |sep| {
    } else if s[..|sep|] == sep {
      SplitJoin(s[|sep|..], sep);
      assert s == "" + sep + s[|sep|..];
    } else {
      SplitJoin(s[1..], sep);
      JoinPrefixFirst(s[0], Split(s[1..], sep), sep);
      assert s == [s[0]] + s[1..];
    }
  }

  /** No piece contains the separator. */
  lemma {:induction false} SplitPiecesFree(s: string, sep: string)
    requires |sep| > 0
    ensures forall i, k :: 0 <= i < |Split(s, sep)| ==> !OccursAt(Split(s, sep)[i], sep, k)
    decreases |s|
  {
    var r := Split(s, sep);
    if |s| < |sep| {
      forall k ensures !OccursAt(s, sep, k) {
      }
    } else if s[..|sep|] == sep {
      SplitPiecesFree(s[|sep|..], sep);
      forall i, k | 0 < i < |r| ensures !OccursAt(r[i], sep, k) {
        assert r[i] == Split(s[|sep|..], sep)[i - 1];
      }
    } else {
      SplitPiecesFree(s[1..], sep);
      var rest := Split(s[1..], sep);
      var head := [s[0]] + rest[0];
      assert head == s[..|head|];
      forall k ensures !OccursAt(head, sep, k) {
        if k == 0 && |sep| <= |head| {
          assert head[..|sep|] == s[..|sep|];
        } else if k > 0 && k + |sep| <= |head| {
          assert head[k..k + |sep|] == rest[0][k - 1..k - 1 + |sep|];
          assert !OccursAt(rest[0], sep, k - 1);
        }
      }
      forall i, k | 0 < i < |r| ensures !OccursAt(r[i], sep, k) {
        assert r[i] == rest[i];
      }
    }
  }

  /** `const [cookieKey] = piece.split("=")`: the text before the first "=". */
  function Key(piece: string): (k: string)
    ensures |k| <= |piece| && k == piece[..|k|]
    ensures forall j :: !OccursAt(k, "=", j)
  {
    SplitPiecesFree(piece, "=");
    Split(piece, "=")[0]
  }

  /**
   * `const [, cookieValue] = piece.split("=")`: the text between the first and
   * the second "=", if there is a first. Without one the whole piece is the key.
   */
  function Value(piece: string): (v: Option<string>)
    ensures v.Some? ==> forall j :: !OccursAt(v.value, "=", j)
    ensures v.None? ==> piece == Key(piece)
  {
    var fields := Split(piece, "=");
    SplitPiecesFree(piece, "=");
    SplitJoin(piece, "=");
    if |fields| >= 2 then Some(fields[1]) else None
  }

  /**
   * The key is a prefix without "="; a value exists exactly when the piece
   * has an "=", and the piece then starts with the key, "=" and the value.
   * Where the value ends is fixed by `PieceWithoutEquals`, `PieceWithOneEquals`
   * and `ValueEndsAtSecondEquals`.
   */
  lemma KeyAndValue(piece: string)
    ensures forall k :: !OccursAt(Key(piece), "=", k)
    ensures Value(piece).None? <==> piece == Key(piece)
    ensures Value(piece).Some? ==>
      && |Key(piece)| + 1 + |Value(piece).value| <= |piece|
      && piece[..|Key(piece)| + 1 + |Value(piece).value|] == Key(piece) + "=" + Value(piece).value
      && forall k :: !OccursAt(Value(piece).value, "=", k)
  {
    var fields := Split(piece, "=");
    SplitJoin(piece, "=");
    SplitPiecesFree(piece, "=");
    assert Key(piece) == fields[0];
    if |fields| >= 2 {
      var tail := Join(fields[1..], "=");
      assert piece == fields[0] + "=" + tail;
      if |fields| > 2 {
        assert tail == fields[1] + "=" + Join(fields[2..], "=");
      }
      assert tail[..|fields[1]|] == fields[1];
      assert piece[..|fields[0]| + 1 + |fields[1]|] == fields[0] + "=" + fields[1];
    }
  }

  /** Text without "=" is one field of its own. */
  lemma {:induction false} SplitFreeText(k: string)
    requires '=' !in k
    ensures Split(k, "=") == [k]
  {
    if |k| >= 1 {
      assert k[..1] != "=" by { assert k[..1][0] == k[0]; }
      SplitFreeText(k[1..]);
      assert k == [k[0]] + k[1..];
    }
  }

  /** Text without "=" followed by "=" is the first field; the rest splits on its own. */
  lemma {:induction false} SplitAfterFreeText(k: string, t: string)
    requires '=' !in k
    ensures Split(k + "=" + t, "=") == [k] + Split(t, "=")
  {
    var s := k + "=" + t;
    if k == [] {
      assert s[..1] == "=" && s[1..] == t;
    } else {
      assert s[..1] != "=" by { assert s[..1][0] == k[0]; }
      assert s[1..] == k[1..] + "=" + t;
      SplitAfterFreeText(k[1..], t);
      assert [s[0]] + k[1..] == k;
    }
  }

  /** A piece without "=" is all key and has no value. */
  lemma PieceWithoutEquals(key: string)
    requires '=' !in key
    ensures Key(key) == key && Value(key) == None
  {
    SplitFreeText(key);
  }

  /** `a=b` gives the key `a` and the value `b`. */
  lemma PieceWithOneEquals(key: string, value: string)
    requires '=' !in key && '=' !in value
    ensures Key(key + "=" + value) == key && Value(key + "=" + value) == Some(value)
  {
    SplitAfterFreeText(key, value);
    SplitFreeText(value);
    assert Split(key + "=" + value, "=") == [key, value];
  }

  /** The value ends at the second "=": `a=b=c` gives the key `a` and the value `b`. */
  lemma ValueEndsAtSecondEquals(key: string, value: string, rest: string)
    requires '=' !in key && '=' !in value
    ensures Key(key + "=" + value + "=" + rest) == key && Value(key + "=" + value + "=" + rest) == Some(value)
  {
    var tail := value + "=" + rest;
    assert key + "=" + value + "=" + rest == key + "=" + tail;
    SplitAfterFreeText(key, tail);
    SplitAfterFreeText(value, rest);
    var fields := Split(key + "=" + tail, "=");
    assert fields == [key] + ([value] + Split(rest, "="));
    assert fields[0] == key && fields[1] == value;
  }

  /** The value the dictionary ends up holding for `name`: that of the last piece with that key. */
  function LastValue(pieces: seq<string>, name: string): (r: Option<string>)
    ensures (forall j :: 0 <= j < |pieces| ==> Key(pieces[j]) != name) ==> r == None
  {
    if pieces == [] then None
    else if Key(pieces[|pieces| - 1]) == name then Value(pieces[|pieces| - 1])
    else LastValue(pieces[..|pieces| - 1], name)
  }

  /** When a key appears more than once, its last occurrence wins. */
  lemma {:induction false} LastOccurrenceWins(pieces: seq<string>, name: string, j: nat)
    requires j < |pieces| && Key(pieces[j]) == name
    requires forall k :: j < k < |pieces| ==> Key(pieces[k]) != name
    ensures LastValue(pieces, name) == Value(pieces[j])
  {
    if j < |pieces| - 1 {
      var init := pieces[..|pieces| - 1];
      assert forall k :: j < k < |init| ==> init[k] == pieces[k];
      LastOccurrenceWins(init, name, j);
    }
  }

  /** The dictionary the `forEach` fills, one piece after another: one entry per distinct key. */
  function Parsed(pieces: seq<string>): (d: map<string, Option<string>>)
    ensures forall name :: name in d <==> exists j :: 0 <= j < |pieces| && Key(pieces[j]) == name
  {
    if pieces == [] then map[]
    else
      var init := pieces[..|pieces| - 1];
      var last := pieces[|pieces| - 1];
      assert forall j :: 0 <= j < |init| ==> init[j] == pieces[j];
      Parsed(init)[Key(last) := Value(last)]
  }

  /** Looking a name up in the filled dictionary gives the value of its last piece, or undefined. */
  lemma {:induction false} ParsedLookup(pieces: seq<string>, name: string)
    ensures name in Parsed(pieces) ==> Parsed(pieces)[name] == LastValue(pieces, name)
    ensures name !in Parsed(pieces) ==> LastValue(pieces, name) == None
  {
    if pieces != [] {
      ParsedLookup(pieces[..|pieces| - 1], name);
    }
  }

  /**
   * `getCookies(req, cookieName)`: without a `Cookie` header the result is
   * undefined; otherwise it is the value of the last piece whose key is
   * `cookieName`, and undefined when there is none.
   */
  method GetCookies(header: Option<string>, cookieName: string) returns (r: Option<string>)
    ensures header.None? ==> r == None
    ensures header.Some? ==> r == LastValue(Split(header.value, PairSeparator), cookieName)
  {
    var cookies: map<string, Option<string>> := map[];
    if header.Some? {
      var pieces := Split(header.value, PairSeparator);
      var i := 0;
      while i < |pieces|
        invariant 0 <= i <= |pieces|
        invariant cookies == Parsed(pieces[..i])
      {
        assert pieces[..i + 1][..i] == pieces[..i];
        cookies := cookies[Key(pieces[i]) := Value(pieces[i])];
        i := i + 1;
      }
      assert pieces[..i] == pieces;
      ParsedLookup(pieces, cookieName);
    }
    r := if cookieName in cookies then cookies[cookieName] else None;
  }
}
