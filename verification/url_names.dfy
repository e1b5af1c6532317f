/**
 The spider's `_safe_name`: every "://", "/", "?", "=", "&", ";", "#" and "%" of a
 URL is replaced by "_", in that order, with Python's `str.replace`, and the result
 is cut to its first 200 characters. The stem names the page dumps on disk.
 */
module UrlNames {

  /** Longest stem `_safe_name` returns. */
  const MaxStemLength: nat := 200

  /** The substrings replaced by "_", in the order they are replaced. */
  const Patterns: seq<string> := ["://", "/", "?", "=", "&", ";", "#", "%"]

  /** The single characters that no stem contains. */
  const Forbidden: set<char> := {'/', '?', '=', '&', ';', '#', '%'}

  predicate StartsWith(s: string, p: string) {
    |p| <= |s| && s[..|p|] == p
  }

  /** `p` occurs somewhere in `s`. */
  predicate Occurs(s: string, p: string)
    decreases |s|
  {
    StartsWith(s, p) || (|s| > 0 && Occurs(s[1..], p))
  }

  /** No character of `s` is in `cs`. */
  predicate FreeOf(s: string, cs: set<char>) {
    forall i :: 0 <= i < |s| ==> s[i] !in cs
  }

  /**
   Python's `s.replace(p, rep)` for a non-empty `p`: scanning left to right, each
   occurrence of `p` that does not overlap an earlier replaced one becomes `rep`.
   */
  function Replace(s: string, p: string, rep: string): (r: string)
    requires |p| > 0
    ensures |rep| <= |p| ==> |r| <= |s|
    ensures !Occurs(s, p) ==> r == s
    decreases |s|
  {
    if |s| == 0 then ""
    else if StartsWith(s, p) then rep + Replace(s[|p|..], p, rep)
    else [s[0]] + Replace(s[1..], p, rep)
  }

  /** Each pattern of `ps` in turn, every occurrence replaced by "_"; no pattern is shorter than "_", so nothing grows. */
  function ReplaceEach(s: string, ps: seq<string>): (r: string)
    requires forall i :: 0 <= i < |ps| ==> |ps[i]| > 0
    ensures |r| <= |s|
    decreases |ps|
  {
    if |ps| == 0 then s else ReplaceEach(Replace(s, ps[0], "_"), ps[1..])
  }

  /** The stem for a URL: the patterns replaced in order, then cut to `MaxStemLength` characters. */
  function SafeName(url: string): (r: string)
    ensures |r| <= MaxStemLength
    ensures |r| <= |url|
    ensures FreeOf(r, Forbidden)
  {
    SafeNameIsTruncatedScan(url);
    var full := ReplaceEach(url, Patterns);
    if |full| <= MaxStemLength then full else full[..MaxStemLength]
  }

  /**
   Reference definition: a single left-to-right pass that emits "_" for each "://"
   (consuming all three characters) and for each forbidden character, and copies
   every other character.
   */
  function Scan(s: string): (r: string)
    ensures |r| <= |s|
    ensures FreeOf(r, Forbidden)
    decreases |s|
  {
    if |s| == 0 then ""
    else if StartsWith(s, "://") then "_" + Scan(s[3..])
    else [if s[0] in Forbidden then '_' else s[0]] + Scan(s[1..])
  }

  /** `s` with every character of `cs` turned into "_". */
  function Blank(s: string, cs: set<char>): (r: string)
    ensures |r| == |s|
  {
    seq(|s|, i requires 0 <= i < |s| => if s[i] in cs then '_' else s[i])
  }

  /** The first characters of the patterns in `ps`. */
  function Heads(ps: seq<string>): set<char>
    requires forall i :: 0 <= i < |ps| ==> |ps[i]| > 0
  {
    set i | 0 <= i < |ps| :: ps[i][0]
  }

  /** Replacing a one-character pattern blanks that character everywhere. */
  lemma {:induction false} ReplaceOneChar(s: string, c: char)
    ensures Replace(s, [c], "_") == Blank(s, {c})
    decreases |s|
  {
    if |s| > 0 {
      ReplaceOneChar(s[1..], c);
      if StartsWith(s, [c]) {
        assert s[0] == c;
      } else {
        assert s[0] != c;
      }
    }
  }

  /** Replacing one-character patterns one after another blanks all of them at once. */
  lemma {:induction false} ReplaceEachOfChars(s: string, ps: seq<string>)
    requires forall i :: 0 <= i < |ps| ==> |ps[i]| == 1
    ensures ReplaceEach(s, ps) == Blank(s, Heads(ps))
    decreases |ps|
  {
    if |ps| > 0 {
      var c := ps[0][0];
      assert ps[0] == [c];
      ReplaceOneChar(s, c);
      ReplaceEachOfChars(Blank(s, {c}), ps[1..]);
      assert Heads(ps) == {c} + Heads(ps[1..]) by {
        forall x | x in Heads(ps) ensures x in {c} + Heads(ps[1..]) {
          var i :| 0 <= i < |ps| && ps[i][0] == x;
          if i > 0 { assert ps[1..][i - 1] == ps[i]; }
        }
        forall x | x in Heads(ps[1..]) ensures x in Heads(ps) {
          var i :| 0 <= i < |ps[1..]| && ps[1..][i][0] == x;
          assert ps[i + 1] == ps[1..][i];
        }
      }
    }
  }

  /** Blanking distributes over concatenation. */
  lemma BlankAppend(a: string, b: string, cs: set<char>)
    ensures Blank(a + b, cs) == Blank(a, cs) + Blank(b, cs)
  {
  }

  /** The single pass equals "://" replaced first, then the forbidden characters blanked. */
  lemma {:induction false} ScanIsBlankedReplace(s: string)
    ensures Scan(s) == Blank(Replace(s, "://", "_"), Forbidden)
    decreases |s|
  {
    if |s| > 0 {
      if StartsWith(s, "://") {
        ScanIsBlankedReplace(s[3..]);
        BlankAppend("_", Replace(s[3..], "://", "_"), Forbidden);
      } else {
        ScanIsBlankedReplace(s[1..]);
        BlankAppend([s[0]], Replace(s[1..], "://", "_"), Forbidden);
      }
    }
  }

  /**
   The chain of replacements equals the single pass, so `_safe_name` is the first
   200 characters of the single pass.
   */
  lemma {:induction false} SafeNameIsTruncatedScan(url: string)
    ensures ReplaceEach(url, Patterns) == Scan(url)
  {
    var rest := Patterns[1..];
    assert rest == ["/", "?", "=", "&", ";", "#", "%"];
    ReplaceEachOfChars(Replace(url, "://", "_"), rest);
    assert Heads(rest) == Forbidden by {
      assert rest[0][0] == '/' && rest[1][0] == '?' && rest[2][0] == '=' && rest[3][0] == '&';
      assert rest[4][0] == ';' && rest[5][0] == '#' && rest[6][0] == '%';
    }
    ScanIsBlankedReplace(url);
  }

  /** `_safe_name` is the single pass cut to 200 characters. */
  lemma {:induction false} SafeNameSinglePass(url: string)
    ensures var s := Scan(url);
            SafeName(url) == if |s| <= MaxStemLength then s else s[..MaxStemLength]
  {
    SafeNameIsTruncatedScan(url);
  }

  /** The single pass leaves a string without forbidden characters unchanged. */
  lemma {:induction false} ScanKeepsClean(s: string)
    requires FreeOf(s, Forbidden)
    ensures Scan(s) == s
    decreases |s|
  {
    if |s| > 0 {
      if |s| >= 3 {
        assert s[1] !in Forbidden;
        assert s[..3][1] == s[1];
      }
      assert !StartsWith(s, "://");
      ScanKeepsClean(s[1..]);
    }
  }

  /**
   The stems `_safe_name` leaves unchanged are exactly the strings of at most 200
   characters that contain no forbidden character (a "://" needs a "/").
   */
  lemma {:induction false} SafeNameFixedPoints(url: string)
    ensures SafeName(url) == url <==> |url| <= MaxStemLength && FreeOf(url, Forbidden)
  {
    if |url| <= MaxStemLength && FreeOf(url, Forbidden) {
      ScanKeepsClean(url);
      SafeNameSinglePass(url);
    }
  }

  /** Applying `_safe_name` twice gives the same stem as applying it once. */
  lemma {:induction false} SafeNameIdempotent(url: string)
    ensures SafeName(SafeName(url)) == SafeName(url)
  {
    SafeNameFixedPoints(SafeName(url));
  }
}
