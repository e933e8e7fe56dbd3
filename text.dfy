// String rules the front-end applies before it talks to the backend:
// JavaScript's notion of white space and String.prototype.trim, Array.join,
// and the two e-mail patterns the forms test, each stated as "the string can
// be split into these runs".
module Text {
  import opened Wrappers

  /** JavaScript's WhiteSpace and LineTerminator code points: what `\s` matches
      in a regular expression and what `trim()` removes. */
  predicate IsSpace(c: char)
  {
    c == ' ' || c == '\t' || c == '\n' || c == '\r' || c == '\U{000B}' || c == '\U{000C}'
    || c == '\U{00A0}' || c == '\U{1680}' || ('\U{2000}' <= c <= '\U{200A}')
    || c == '\U{2028}' || c == '\U{2029}' || c == '\U{202F}' || c == '\U{205F}'
    || c == '\U{3000}' || c == '\U{FEFF}'
  }

  predicate NoSpace(s: string)
  {
    forall k :: 0 <= k < |s| ==> !IsSpace(s[k])
  }

  function TrimStart(s: string): (r: string)
    ensures |r| <= |s| && r == s[|s| - |r|..]
    ensures r != [] ==> !IsSpace(r[0])
    ensures forall k :: 0 <= k < |s| - |r| ==> IsSpace(s[k])
    decreases |s|
  {
    if s != [] && IsSpace(s[0]) then TrimStart(s[1..]) else s
  }

  function TrimEnd(s: string): (r: string)
    ensures |r| <= |s| && r == s[..|r|]
    ensures r != [] ==> !IsSpace(r[|r| - 1])
    ensures forall k :: |r| <= k < |s| ==> IsSpace(s[k])
    decreases |s|
  {
    if s != [] && IsSpace(s[|s| - 1]) then TrimEnd(s[..|s| - 1]) else s
  }

  /** `s.trim()`: the part of `s` between its leading and trailing white space. */
  function Trim(s: string): (r: string)
  {
    TrimEnd(TrimStart(s))
  }

  /** `!s.trim()`: nothing but white space (see TrimEmptyIffBlank). */
  predicate IsBlank(s: string)
  {
    forall k :: 0 <= k < |s| ==> IsSpace(s[k])
  }

  /** Trimming leaves nothing exactly when every character is white space. */
  lemma TrimEmptyIffBlank(s: string)
    ensures Trim(s) == "" <==> IsBlank(s)
  {
    var t := TrimStart(s);
    assert forall k :: |s| - |t| <= k < |s| ==> s[k] == t[k - (|s| - |t|)];
  }

  /** `parts.join(sep)`. */
  function Join(parts: seq<string>, sep: string): string
    decreases |parts|
  {
    if parts == [] then ""
    else if |parts| == 1 then parts[0]
    else parts[0] + sep + Join(parts[1..], sep)
  }

  /** A character in none of the parts and not in the separator is not in
      their join. */
  lemma {:induction false} JoinAvoids(parts: seq<string>, sep: string, c: char)
    requires forall p, k :: p in parts && 0 <= k < |p| ==> p[k] != c
    requires forall k :: 0 <= k < |sep| ==> sep[k] != c
    ensures forall k :: 0 <= k < |Join(parts, sep)| ==> Join(parts, sep)[k] != c
    decreases |parts|
  {
    if |parts| > 1 {
      JoinAvoids(parts[1..], sep, c);
      var rest := Join(parts[1..], sep);
      assert parts[0] in parts;
      forall k | 0 <= k < |parts[0] + sep + rest| ensures (parts[0] + sep + rest)[k] != c {
        if k >= |parts[0]| + |sep| {
          assert (parts[0] + sep + rest)[k] == rest[k - |parts[0]| - |sep|];
        }
      }
    } else if |parts| == 1 {
      assert parts[0] in parts;
    }
  }

  function IndexOfChar(s: string, c: char): (r: Option<nat>)
    ensures r.Some? ==> r.value < |s| && s[r.value] == c
    ensures r.Some? ==> forall k :: 0 <= k < r.value ==> s[k] != c
    ensures r.None? ==> forall k :: 0 <= k < |s| ==> s[k] != c
    decreases |s|
  {
    if s == [] then None
    else if s[0] == c then Some(0)
    else match IndexOfChar(s[1..], c)
      case None => None
      case Some(k) => Some(k + 1)
  }

  /** `s.split(sep)` for a one-character separator. */
  function Split(s: string, sep: char): (r: seq<string>)
    ensures |r| >= 1
    decreases |s|
  {
    match IndexOfChar(s, sep)
    case None => [s]
    case Some(k) => [s[..k]] + Split(s[k + 1..], sep)
  }

  /** Joining lines that do not contain the separator can be undone by splitting. */
  lemma {:induction false} SplitJoin(parts: seq<string>, sep: char)
    requires |parts| >= 1
    requires forall p, k :: p in parts && 0 <= k < |p| ==> p[k] != sep
    ensures Split(Join(parts, [sep]), sep) == parts
    decreases |parts|
  {
    var head := parts[0];
    if |parts| == 1 {
      assert IndexOfChar(head, sep).None?;
    } else {
      var rest := Join(parts[1..], [sep]);
      var s := head + [sep] + rest;
      assert Join(parts, [sep]) == s;
      assert forall k :: 0 <= k < |head| ==> s[k] == head[k];
      assert s[|head|] == sep;
      var i := IndexOfChar(s, sep);
      assert i == Some(|head|);
      assert s[..|head|] == head;
      assert s[|head| + 1..] == rest;
      SplitJoin(parts[1..], sep);
      assert parts == [head] + parts[1..];
    }
  }

  /** A run of `[^\s@]+`. */
  predicate IsAddressPart(t: string)
  {
    |t| > 0 && forall k :: 0 <= k < |t| ==> !IsSpace(t[k]) && t[k] != '@'
  }

  /** A run of `\S+`. */
  predicate IsNonSpaceRun(t: string)
  {
    |t| > 0 && NoSpace(t)
  }

  /** `s` is a "@" b "." c with the "@" at i and the "." at j, where a, b and c
      are non-empty runs without white space and without "@". */
  predicate StrictSplitAt(s: string, i: int, j: int)
  {
    0 < i < j < |s| && s[i] == '@' && s[j] == '.'
    && IsAddressPart(s[..i]) && IsAddressPart(s[i + 1..j]) && IsAddressPart(s[j + 1..])
  }

  /** `/^[^\s@]+@[^\s@]+\.[^\s@]+$/.test(s)`: the whole of `s` can be split so. */
  predicate MatchesStrictEmail(s: string)
  {
    exists i, j | 0 < i < j < |s| :: StrictSplitAt(s, i, j)
  }

  /** s[x..y] is a "@" b "." c with the "@" at i and the "." at j, where a, b
      and c are non-empty runs without white space. */
  predicate LooseSplitAt(s: string, x: int, i: int, j: int, y: int)
  {
    0 <= x < i < j < y <= |s| && s[i] == '@' && s[j] == '.'
    && IsNonSpaceRun(s[x..i]) && IsNonSpaceRun(s[i + 1..j]) && IsNonSpaceRun(s[j + 1..y])
  }

  /** `/\S+@\S+\.\S+/.test(s)`: some part of `s` can be split so. */
  predicate MatchesLooseEmail(s: string)
  {
    exists x, i, j, y | 0 <= x < i < j < y <= |s| :: LooseSplitAt(s, x, i, j, y)
  }

  /** The only "@" of `s` is at i, and a "." at j lies after it, neither right
      after it nor last. */
  predicate SoleAtBeforeDot(s: string, i: int, j: int)
  {
    0 < i && i + 1 < j < |s| - 1 && s[i] == '@' && s[j] == '.'
    && forall k :: 0 <= k < |s| && s[k] == '@' ==> k == i
  }

  /** Whole-string description of the strict pattern: no white space, one "@"
      that is not first, and a "." later that is neither right after the "@"
      nor last. */
  predicate StrictEmailShape(s: string)
  {
    NoSpace(s) && exists i, j | 0 < i < j < |s| :: SoleAtBeforeDot(s, i, j)
  }

  lemma StrictEmailIffShape(s: string)
    ensures MatchesStrictEmail(s) <==> StrictEmailShape(s)
  {
    if MatchesStrictEmail(s) {
      var i, j :| 0 < i < j < |s| && StrictSplitAt(s, i, j);
      forall k | 0 <= k < |s| ensures !IsSpace(s[k]) && (s[k] == '@' ==> k == i) {
        if k < i {
          assert s[..i][k] == s[k];
        } else if i < k < j {
          assert s[i + 1..j][k - i - 1] == s[k];
        } else if j < k {
          assert s[j + 1..][k - j - 1] == s[k];
        }
      }
      assert SoleAtBeforeDot(s, i, j);
    }
    if StrictEmailShape(s) {
      var i, j :| 0 < i < j < |s| && SoleAtBeforeDot(s, i, j);
      assert IsAddressPart(s[..i]);
      assert IsAddressPart(s[i + 1..j]);
      assert IsAddressPart(s[j + 1..]);
      assert StrictSplitAt(s, i, j);
    }
  }

  /** Everything the strict pattern accepts, the loose one accepts too. */
  lemma StrictImpliesLoose(s: string)
    requires MatchesStrictEmail(s)
    ensures MatchesLooseEmail(s)
  {
    var i, j :| 0 < i < j < |s| && StrictSplitAt(s, i, j);
    assert s[0..i] == s[..i] && s[j + 1..|s|] == s[j + 1..];
    assert LooseSplitAt(s, 0, i, j, |s|);
  }

  /** ... but not conversely: the loose pattern finds "b@c.d" inside "a b@c.d". */
  lemma LooseDoesNotImplyStrict()
    ensures MatchesLooseEmail("a b@c.d") && !MatchesStrictEmail("a b@c.d")
  {
    var s := "a b@c.d";
    assert s[2..3] == "b" && s[4..5] == "c" && s[6..7] == "d";
    assert LooseSplitAt(s, 2, 3, 5, 7);
    StrictEmailIffShape(s);
    assert IsSpace(s[1]);
  }

  /** A string matching the strict pattern is never blank. */
  lemma StrictEmailNotBlank(s: string)
    requires MatchesStrictEmail(s)
    ensures !IsBlank(s)
  {
    StrictEmailIffShape(s);
    assert !IsSpace(s[0]);
  }

  /** White space around an otherwise valid address passes the blank test but
      fails the strict pattern, which is tested on the untrimmed value. */
  lemma PaddedEmailIsRejected()
    ensures !IsBlank(" a@b.c") && !MatchesStrictEmail(" a@b.c")
  {
    var s := " a@b.c";
    assert !IsSpace(s[1]);
    StrictEmailIffShape(s);
    assert IsSpace(s[0]);
  }
}
