/** Hiding every fragment of a secret that shows up in a diagnostic text. */
module Redaction {

  const TOKEN: string := "[REDACTED]"

  // ---- which characters must go: the quadratic specification -------------------------------------------------

  /** `value[lo..hi]` occurs somewhere in the secret. */
  ghost predicate Common(value: string, secret: string, lo: nat, hi: nat)
    requires lo <= hi <= |value|
  {
    exists at: nat :: OccursAt(secret, value[lo..hi], at)
  }

  predicate OccursAt(text: string, fragment: string, at: nat) {
    at + |fragment| <= |text| && text[at..at + |fragment|] == fragment
  }

  lemma Subslice(s: string, a: nat, b: nat, lo: nat, hi: nat)
    requires a <= b <= |s| && lo <= hi <= b - a
    ensures s[a..b][lo..hi] == s[a + lo..a + hi]
  {
    forall k | 0 <= k < hi - lo ensures s[a..b][lo..hi][k] == s[a + lo..a + hi][k] {
      assert s[a..b][lo + k] == s[a + lo + k];
    }
  }

  /** A common fragment of at least `minimum` characters covers index `i`. */
  ghost predicate Covers(value: string, secret: string, minimum: nat, i: nat, lo: nat, hi: nat) {
    lo <= i < hi <= |value| && hi - lo >= minimum && Common(value, secret, lo, hi)
  }

  ghost predicate Leaks(value: string, secret: string, minimum: nat, i: nat) {
    exists lo: nat, hi: nat :: Covers(value, secret, minimum, i, lo, hi)
  }

  ghost function Marks(value: string, secret: string, minimum: nat): (marks: seq<bool>)
    ensures |marks| == |value|
  {
    seq(|value|, i requires 0 <= i < |value| => Leaks(value, secret, minimum, i))
  }

  // ---- what the reader sees --------------------------------------------------------------------------------------

  datatype Piece = Keep(text: string) | Hide(text: string)

  /** `pieces` cuts `value[i..]` into maximal runs, each wholly marked or wholly unmarked. */
  ghost predicate Runs(pieces: seq<Piece>, value: string, marks: seq<bool>, i: nat)
    requires |marks| == |value| && i <= |value|
    decreases |pieces|
  {
    if |pieces| == 0 then i == |value| else
      var piece, end := pieces[0], i + |pieces[0].text|;
      && i < end <= |value| && piece.text == value[i..end]
      && (forall k :: i <= k < end ==> marks[k] == piece.Hide?)
      && (end < |value| ==> marks[end] != piece.Hide?)
      && Runs(pieces[1..], value, marks, end)
  }

  function Shown(pieces: seq<Piece>): string {
    if |pieces| == 0 then ""
    else (if pieces[0].Keep? then pieces[0].text else TOKEN) + Shown(pieces[1..])
  }

  function Pieces(value: string, marks: seq<bool>, i: nat): (pieces: seq<Piece>)
    requires |marks| == |value| && i <= |value|
    ensures Runs(pieces, value, marks, i)
    decreases |value| - i
  {
    if i == |value| then [] else
      var rest := Pieces(value, marks, i + 1);
      if i + 1 < |value| && marks[i + 1] == marks[i] then
        var text := [value[i]] + rest[0].text;
        [if marks[i] then Hide(text) else Keep(text)] + rest[1..]
      else [if marks[i] then Hide([value[i]]) else Keep([value[i]])] + rest
  }

  /** The cut into maximal runs is unique, so the text shown is determined by the marks alone. */
  lemma {:induction false} RunsUnique(a: seq<Piece>, b: seq<Piece>, value: string, marks: seq<bool>, i: nat)
    requires |marks| == |value| && i <= |value|
    requires Runs(a, value, marks, i) && Runs(b, value, marks, i)
    ensures a == b
    decreases |a|
  {
    if |a| > 0 && |b| > 0 {
      var endA, endB := i + |a[0].text|, i + |b[0].text|;
      assert marks[i] == a[0].Hide? == b[0].Hide?;
      assert endA == endB;
      RunsUnique(a[1..], b[1..], value, marks, endA);
      assert a == [a[0]] + a[1..] && b == [b[0]] + b[1..];
    }
  }

  /** Marks on nothing show the value as it is. */
  lemma {:induction false} Unmarked(value: string, marks: seq<bool>, i: nat)
    requires |marks| == |value| && i <= |value|
    requires forall k :: 0 <= k < |marks| ==> !marks[k]
    ensures Shown(Pieces(value, marks, i)) == value[i..]
    decreases |value| - i
  {
    if i < |value| {
      Unmarked(value, marks, i + 1);
      ShowOne(value, marks, i);
    }
  }

  lemma ShowOne(value: string, marks: seq<bool>, i: nat)
    requires |marks| == |value| && i < |value| && !marks[i]
    ensures Shown(Pieces(value, marks, i)) == [value[i]] + Shown(Pieces(value, marks, i + 1))
  {
    var rest := Pieces(value, marks, i + 1);
    if i + 1 < |value| && !marks[i + 1] {
      assert Shown(Pieces(value, marks, i)) == ([value[i]] + rest[0].text) + Shown(rest[1..]);
      assert ([value[i]] + rest[0].text) + Shown(rest[1..]) == [value[i]] + (rest[0].text + Shown(rest[1..]));
    }
  }

  lemma HideOne(value: string, marks: seq<bool>, i: nat)
    requires |marks| == |value| && i < |value| && marks[i]
    ensures Shown(Pieces(value, marks, i)) ==
              if i + 1 < |value| && marks[i + 1] then Shown(Pieces(value, marks, i + 1))
              else TOKEN + Shown(Pieces(value, marks, i + 1))
  {
  }

  lemma {:induction false} HideRun(value: string, marks: seq<bool>, i: nat, end: nat)
    requires |marks| == |value| && i < end <= |value| && (end < |value| ==> !marks[end])
    requires forall k :: i <= k < end ==> marks[k]
    ensures Shown(Pieces(value, marks, i)) == TOKEN + Shown(Pieces(value, marks, end))
    decreases end - i
  {
    HideOne(value, marks, i);
    if i + 1 < end { HideRun(value, marks, i + 1, end); }
  }

  /** Nothing left readable holds `minimum` consecutive characters of the secret. */
  lemma {:induction false} KeptIsClean(pieces: seq<Piece>, value: string, secret: string, minimum: nat, i: nat, p: nat,
                                      lo: nat, hi: nat)
    requires i <= |value| && Runs(pieces, value, Marks(value, secret, minimum), i)
    requires p < |pieces| && pieces[p].Keep?
    requires minimum >= 1 && lo + minimum <= hi <= |pieces[p].text|
    ensures !Common(pieces[p].text, secret, lo, hi)
    decreases p
  {
    if p > 0 {
      KeptIsClean(pieces[1..], value, secret, minimum, i + |pieces[0].text|, p - 1, lo, hi);
    } else {
      assert !Marks(value, secret, minimum)[i + lo];
      assert !Covers(value, secret, minimum, i + lo, i + lo, i + hi);
      Subslice(value, i, i + |pieces[0].text|, lo, hi);
    }
  }

  // ---- the windowed algorithm ------------------------------------------------------------------------------------

  predicate InWindow(value: string, windows: set<string>, minimum: nat, start: nat, k: nat) {
    start <= k < start + minimum <= |value| && value[start..start + minimum] in windows
  }

  function Window(text: string, minimum: nat, at: nat): string
    requires at + minimum <= |text|
  {
    text[at..at + minimum]
  }

  function Windows(secret: string, minimum: nat): set<string>
    requires minimum <= |secret|
  {
    set at | 0 <= at < |secret| - minimum + 1 :: Window(secret, minimum, at)
  }

  /** Looking only at windows of exactly `minimum` characters finds the same indices as looking at all fragments. */
  lemma WindowsSuffice(value: string, secret: string, minimum: nat, i: nat)
    requires 1 <= minimum <= |secret|
    ensures Leaks(value, secret, minimum, i) <==>
            exists start: nat :: InWindow(value, Windows(secret, minimum), minimum, start, i)
  {
    if Leaks(value, secret, minimum, i) {
      var lo: nat, hi: nat :| Covers(value, secret, minimum, i, lo, hi);
      var at: nat :| OccursAt(secret, value[lo..hi], at);
      var start := if i + minimum <= hi then i else hi - minimum;
      var from := at + (start - lo);
      Subslice(value, lo, hi, start - lo, start - lo + minimum);
      Subslice(secret, at, at + (hi - lo), start - lo, start - lo + minimum);
      assert Window(secret, minimum, from) == value[start..start + minimum];
      assert InWindow(value, Windows(secret, minimum), minimum, start, i);
    }
    if exists start: nat :: InWindow(value, Windows(secret, minimum), minimum, start, i) {
      var start: nat :| InWindow(value, Windows(secret, minimum), minimum, start, i);
      var at :| 0 <= at < |secret| - minimum + 1 && Window(secret, minimum, at) == value[start..start + minimum];
      assert OccursAt(secret, value[start..start + minimum], at);
      assert Covers(value, secret, minimum, i, start, start + minimum);
    }
  }

  /** The marking loop. */
  method MarkWindows(value: string, windows: set<string>, minimum: nat) returns (redacted: array<bool>)
    requires minimum <= |value|
    ensures fresh(redacted) && redacted.Length == |value|
    ensures forall k :: 0 <= k < |value| ==>
              (redacted[k] <==> exists start: nat :: InWindow(value, windows, minimum, start, k))
  {
    redacted := new bool[|value|](_ => false);
    for index := 0 to |value| - minimum + 1
      invariant forall k :: 0 <= k < |value| ==>
                  (redacted[k] <==> exists start: nat :: start < index && InWindow(value, windows, minimum, start, k))
    {
      if value[index..index + minimum] in windows {
        ghost var before := redacted[..];
        for k := index to index + minimum
          invariant forall j :: 0 <= j < |value| ==> redacted[j] == (before[j] || index <= j < k)
        {
          redacted[k] := true;
        }
        forall k | 0 <= k < |value|
          ensures redacted[k] <==> exists start: nat :: start < index + 1 && InWindow(value, windows, minimum, start, k)
        {
          if index <= k < index + minimum { assert InWindow(value, windows, minimum, index, k); }
        }
      }
    }
  }

  /** The end of the marked run at `start`; the run shows as one token. */
  method SkipRun(value: string, redacted: array<bool>, start: nat) returns (index: nat)
    requires redacted.Length == |value| && start < |value| && redacted[start]
    ensures start < index <= |value|
    ensures Shown(Pieces(value, redacted[..], start)) == TOKEN + Shown(Pieces(value, redacted[..], index))
  {
    index := start + 1;
    while index < |value| && redacted[index]
      invariant start < index <= |value|
      invariant forall k :: start <= k < index ==> redacted[k]
    {
      index := index + 1;
    }
    HideRun(value, redacted[..], start, index);
  }

  /** The scan that joins the kept characters and one token for each marked run. */
  method Join(value: string, redacted: array<bool>) returns (text: string)
    requires redacted.Length == |value|
    ensures text == Shown(Pieces(value, redacted[..], 0))
  {
    ghost var marks := redacted[..];
    text := "";
    var index := 0;
    while index < |value|
      invariant index <= |value|
      invariant text + Shown(Pieces(value, marks, index)) == Shown(Pieces(value, marks, 0))
    {
      ghost var shown := text;
      if !redacted[index] {
        ShowOne(value, marks, index);
        text := text + [value[index]];
        index := index + 1;
      } else {
        text := text + TOKEN;
        index := SkipRun(value, redacted, index);
        assert shown + (TOKEN + Shown(Pieces(value, marks, index))) == text + Shown(Pieces(value, marks, index));
      }
    }
  }

  /** Every index inside a common fragment of at least `minimum` characters is hidden, no other is, and each maximal
      hidden run leaves one token. With `minimum` zero nothing is hidden. */
  method RedactSecretFragments(value: string, secret: string, minimum: nat) returns (text: string)
    ensures minimum >= 1 ==> text == Shown(Pieces(value, Marks(value, secret, minimum), 0))
    ensures minimum == 0 ==> text == value
  {
    if |value| < minimum || |secret| < minimum {
      NothingCommon(value, secret, minimum);
      return value;
    }
    var windows := Windows(secret, minimum);
    var redacted := MarkWindows(value, windows, minimum);
    assert minimum >= 1 ==> redacted[..] == Marks(value, secret, minimum) by {
      forall k | minimum >= 1 && 0 <= k < |value| ensures redacted[k] == Marks(value, secret, minimum)[k] {
        WindowsSuffice(value, secret, minimum, k);
      }
    }
    if true !in redacted[..] {
      Unmarked(value, redacted[..], 0);
      return value;
    }
    text := Join(value, redacted);
    assert minimum >= 1;
  }

  /** What `minimum` zero asks for and does not get: every character that occurs in the secret is a fragment. */
  lemma ZeroMinimum(value: string, secret: string, i: nat)
    requires i < |value|
    ensures Leaks(value, secret, 0, i) <==> value[i] in secret
  {
    if value[i] in secret {
      var at: nat :| at < |secret| && secret[at] == value[i];
      assert OccursAt(secret, value[i..i + 1], at);
      assert Covers(value, secret, 0, i, i, i + 1);
    }
    if Leaks(value, secret, 0, i) {
      var lo: nat, hi: nat :| Covers(value, secret, 0, i, lo, hi);
      var at: nat :| OccursAt(secret, value[lo..hi], at);
      assert secret[at..at + (hi - lo)][i - lo] == secret[at + (i - lo)] == value[i];
    }
  }

  lemma TooShort(value: string, secret: string, minimum: nat, i: nat)
    requires |value| < minimum || |secret| < minimum
    ensures !Leaks(value, secret, minimum, i)
  {
    forall lo: nat, hi: nat | lo <= hi <= |value| && hi - lo >= minimum ensures !Common(value, secret, lo, hi) {
      assert |value[lo..hi]| == hi - lo;
    }
  }

  lemma NothingCommon(value: string, secret: string, minimum: nat)
    requires |value| < minimum || |secret| < minimum
    ensures Shown(Pieces(value, Marks(value, secret, minimum), 0)) == value
  {
    forall k | 0 <= k < |value| ensures !Marks(value, secret, minimum)[k] {
      TooShort(value, secret, minimum, k);
    }
    Unmarked(value, Marks(value, secret, minimum), 0);
  }
}
