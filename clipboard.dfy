/**
 * The plain text that the copy control of an assistant entry writes to the
 * clipboard (static/main.js, copyToClipboard): four global regular-expression
 * deletions applied in order, of a pair of asterisks, of one asterisk, of
 * `#{1,6}\s`, and of a backtick.
 * Each deletion scans left to right and resumes after a match, so each is a
 * left-to-right recursion here.
 */
module Clipboard {
  import opened Strings

  /** The first deletion: every non-overlapping pair of asterisks, taken from the left. */
  function StripBold(s: string): (r: string)
    ensures |r| <= |s| && (|s| - |r|) % 2 == 0
  {
    if |s| >= 2 && s[0] == '*' && s[1] == '*' then StripBold(s[2..])
    else if s == [] then []
    else [s[0]] + StripBold(s[1..])
  }

  /** No two adjacent asterisks. */
  predicate NoAsteriskPair(r: string) {
    forall i :: 0 <= i < |r| - 1 ==> !(r[i] == '*' && r[i + 1] == '*')
  }

  /**
   * No pair of asterisks is left after the first deletion: an asterisk that
   * stays is one whose successor is not an asterisk, and that successor stays.
   */
  lemma {:induction false} StripBoldLeavesNoPair(s: string)
    ensures NoAsteriskPair(StripBold(s))
    ensures s != [] && s[0] != '*' ==> StripBold(s) != [] && StripBold(s)[0] == s[0]
    decreases |s|
  {
    if |s| >= 2 && s[0] == '*' && s[1] == '*' {
      StripBoldLeavesNoPair(s[2..]);
    } else if s != [] {
      StripBoldLeavesNoPair(s[1..]);
      var r, r' := StripBold(s), StripBold(s[1..]);
      assert r == [s[0]] + r';
      if s[0] == '*' && |s| >= 2 {
        assert s[1..][0] == s[1] != '*';
        assert r'[0] == s[1];
      }
      forall i | 0 <= i < |r| - 1 ensures !(r[i] == '*' && r[i + 1] == '*') {
        if i > 0 {
          assert r[i] == r'[i - 1] && r[i + 1] == r'[i];
        }
      }
    }
  }

  /** A global deletion of the single character `c` (the second and fourth steps). */
  function EraseAll(s: string, c: char): (r: string)
    ensures c !in r
  {
    if s == [] then []
    else if s[0] == c then EraseAll(s[1..], c)
    else [s[0]] + EraseAll(s[1..], c)
  }

  /**
   * How many `#` the greedy quantifier `#{1,6}` takes at the start of `s`:
   * the run of leading hashes, capped at six.
   */
  function HashRun(s: string): (k: nat)
    ensures k <= 6 && k <= |s|
  {
    HashRunUpTo(s, 6)
  }

  function HashRunUpTo(s: string, limit: nat): (k: nat)
    ensures k <= limit && k <= |s|
  {
    if limit == 0 || s == [] || s[0] != '#' then 0
    else 1 + HashRunUpTo(s[1..], limit - 1)
  }

  /** The capped run is a run of hashes, and it stops early only at a character that is not a hash. */
  lemma {:induction false} HashRunIsMaximal(s: string, limit: nat)
    ensures var k := HashRunUpTo(s, limit);
      && (forall i :: 0 <= i < k ==> s[i] == '#')
      && (k < limit && k < |s| ==> s[k] != '#')
    decreases limit
  {
    if limit > 0 && s != [] && s[0] == '#' {
      HashRunIsMaximal(s[1..], limit - 1);
    }
  }

  /** The regular expression `#{1,6}\s` matches the first `j + 1` characters of `s`. */
  predicate HeadingMarkerOfLength(s: string, j: nat) {
    1 <= j <= 6 && j < |s| && (forall i :: 0 <= i < j ==> s[i] == '#') && IsWhitespace(s[j])
  }

  /** The heading marker at the start of `s`, if any, found as the greedy hash run. */
  predicate HeadingMarkerAt(s: string) {
    var k := HashRun(s);
    1 <= k < |s| && IsWhitespace(s[k])
  }

  /**
   * The regular expression matches at the start of `s` exactly when the greedy
   * hash run is followed by whitespace, and then the match is that run: the
   * backtracking that `#{1,6}` allows never yields another match, because a
   * shorter run is followed by `#`, which is not whitespace.
   */
  lemma HeadingMarkerIsGreedyRun(s: string, j: nat)
    ensures HeadingMarkerOfLength(s, j) <==> (HeadingMarkerAt(s) && j == HashRun(s))
  {
    var k := HashRun(s);
    HashRunIsMaximal(s, 6);
    if HeadingMarkerOfLength(s, j) {
      assert !IsWhitespace('#');
    }
  }

  /** The third deletion, of `#{1,6}\s`: unanchored; a match is deleted and the scan resumes after it. */
  function StripHeadings(s: string): (r: string)
    ensures |r| <= |s|
    decreases |s|
  {
    if s == [] then []
    else if HeadingMarkerAt(s) then StripHeadings(s[HashRun(s) + 1..])
    else [s[0]] + StripHeadings(s[1..])
  }

  /** The text written to the clipboard for an assistant entry holding `text`. */
  function PlainText(text: string): (r: string)
    ensures '`' !in r
  {
    EraseAll(StripHeadings(EraseAll(StripBold(text), '*')), '`')
  }

  // Every step only deletes characters.

  lemma {:induction false} StripBoldIsSubsequence(s: string)
    ensures IsSubsequence(StripBold(s), s)
    decreases |s|
  {
    if |s| >= 2 && s[0] == '*' && s[1] == '*' {
      StripBoldIsSubsequence(s[2..]);
      SubsequenceOfSuffix(StripBold(s[2..]), s, 2);
    } else if s != [] {
      StripBoldIsSubsequence(s[1..]);
      SubsequenceCons(s[0], StripBold(s[1..]), s[1..]);
      assert [s[0]] + s[1..] == s;
    }
  }

  lemma {:induction false} EraseAllIsSubsequence(s: string, c: char)
    ensures IsSubsequence(EraseAll(s, c), s)
    decreases |s|
  {
    if s != [] {
      EraseAllIsSubsequence(s[1..], c);
      if s[0] == c {
        SubsequenceOfSuffix(EraseAll(s[1..], c), s, 1);
      } else {
        SubsequenceCons(s[0], EraseAll(s[1..], c), s[1..]);
        assert [s[0]] + s[1..] == s;
      }
    }
  }

  /** The single-character deletion removes every `c` and keeps every other character, as often as it occurs. */
  lemma {:induction false} EraseAllKeepsOthers(s: string, c: char)
    ensures multiset(EraseAll(s, c)) == multiset(s)[c := 0]
    decreases |s|
  {
    if s != [] {
      EraseAllKeepsOthers(s[1..], c);
      assert s == [s[0]] + s[1..];
      assert multiset(s) == multiset{s[0]} + multiset(s[1..]);
    }
  }

  /** The first deletion removes asterisks only: every other character keeps its count. */
  lemma {:induction false} StripBoldDeletesOnlyAsterisks(s: string)
    ensures multiset(StripBold(s))['*' := 0] == multiset(s)['*' := 0]
    decreases |s|
  {
    if |s| >= 2 && s[0] == '*' && s[1] == '*' {
      StripBoldDeletesOnlyAsterisks(s[2..]);
      assert s[1..][1..] == s[2..];
      AsteriskUncounted(s[1..]);
      AsteriskUncounted(s);
    } else if s != [] {
      StripBoldDeletesOnlyAsterisks(s[1..]);
      ConsCounted(s[0], s[1..]);
      ConsCounted(s[0], StripBold(s[1..]));
      assert [s[0]] + s[1..] == s;
    }
  }

  /** A leading asterisk does not count once asterisks are uncounted. */
  lemma AsteriskUncounted(s: string)
    requires s != [] && s[0] == '*'
    ensures multiset(s)['*' := 0] == multiset(s[1..])['*' := 0]
  {
    assert s == [s[0]] + s[1..];
  }

  lemma ConsCounted(c: char, u: string)
    ensures multiset([c] + u)['*' := 0] == (if c == '*' then multiset{} else multiset{c}) + multiset(u)['*' := 0]
  {
  }

  /** The third deletion removes hashes and whitespace only: every other character keeps its count. */
  lemma {:induction false} StripHeadingsDeletesOnlyHashesAndWhitespace(s: string)
    ensures forall x :: x != '#' && !IsWhitespace(x) ==> multiset(StripHeadings(s))[x] == multiset(s)[x]
    decreases |s|
  {
    if s != [] {
      if HeadingMarkerAt(s) {
        var k := HashRun(s);
        StripHeadingsDeletesOnlyHashesAndWhitespace(s[k + 1..]);
        HashRunIsMaximal(s, 6);
        MarkerUncounted(s, k + 1);
      } else {
        StripHeadingsDeletesOnlyHashesAndWhitespace(s[1..]);
        assert s == [s[0]] + s[1..];
      }
    }
  }

  /** A prefix of hashes and whitespace does not count towards any other character. */
  lemma {:induction false} MarkerUncounted(s: string, j: nat)
    requires j <= |s| && forall i :: 0 <= i < j ==> s[i] == '#' || IsWhitespace(s[i])
    ensures forall x :: x != '#' && !IsWhitespace(x) ==> multiset(s)[x] == multiset(s[j..])[x]
    decreases j
  {
    if j > 0 {
      assert s[1..][j - 1..] == s[j..];
      MarkerUncounted(s[1..], j - 1);
      assert s == [s[0]] + s[1..];
    }
  }

  lemma {:induction false} StripHeadingsIsSubsequence(s: string)
    ensures IsSubsequence(StripHeadings(s), s)
    decreases |s|
  {
    if s != [] {
      if HeadingMarkerAt(s) {
        var k := HashRun(s);
        StripHeadingsIsSubsequence(s[k + 1..]);
        SubsequenceOfSuffix(StripHeadings(s[k + 1..]), s, k + 1);
      } else {
        StripHeadingsIsSubsequence(s[1..]);
        SubsequenceCons(s[0], StripHeadings(s[1..]), s[1..]);
        assert [s[0]] + s[1..] == s;
      }
    }
  }

  /** The copied text is the assistant text with some characters deleted, so it is never longer. */
  lemma PlainTextIsSubsequence(text: string)
    ensures IsSubsequence(PlainText(text), text)
    ensures |PlainText(text)| <= |text|
  {
    var s1 := StripBold(text);
    var s2 := EraseAll(s1, '*');
    var s3 := StripHeadings(s2);
    var s4 := EraseAll(s3, '`');
    StripBoldIsSubsequence(text);
    EraseAllIsSubsequence(s1, '*');
    StripHeadingsIsSubsequence(s2);
    EraseAllIsSubsequence(s3, '`');
    SubsequenceTransitive(s2, s1, text);
    SubsequenceTransitive(s3, s2, text);
    SubsequenceTransitive(s4, s3, text);
    SubsequenceNotLonger(s4, text);
  }

  /** No asterisk and no backtick survives into the copied text. */
  lemma PlainTextHasNoEmphasisOrCode(text: string)
    ensures '*' !in PlainText(text) && '`' !in PlainText(text)
  {
    var s2 := EraseAll(StripBold(text), '*');
    var s3 := StripHeadings(s2);
    StripHeadingsIsSubsequence(s2);
    SubsequenceExcludes(s3, s2, '*');
    EraseAllIsSubsequence(s3, '`');
    SubsequenceExcludes(EraseAll(s3, '`'), s3, '*');
  }

  // Which characters the derivation may delete.

  /** The characters a step may delete: asterisks, backticks, hashes and whitespace. */
  predicate IsMarkup(c: char) {
    c == '*' || c == '`' || c == '#' || IsWhitespace(c)
  }

  /** The characters of `s` that are not markup, in order. */
  function Content(s: string): string {
    if s == [] then [] else (if IsMarkup(s[0]) then [] else [s[0]]) + Content(s[1..])
  }

  /** Deleting a prefix made of markup leaves the content unchanged. */
  lemma {:induction false} ContentSkipsMarkup(s: string, j: nat)
    requires j <= |s| && forall i :: 0 <= i < j ==> IsMarkup(s[i])
    ensures Content(s) == Content(s[j..])
    decreases j
  {
    if j > 0 {
      assert s[1..][j - 1..] == s[j..];
      ContentSkipsMarkup(s[1..], j - 1);
    }
  }

  lemma {:induction false} StripBoldKeepsContent(s: string)
    ensures Content(StripBold(s)) == Content(s)
    decreases |s|
  {
    if |s| >= 2 && s[0] == '*' && s[1] == '*' {
      StripBoldKeepsContent(s[2..]);
      ContentSkipsMarkup(s, 2);
    } else if s != [] {
      StripBoldKeepsContent(s[1..]);
      assert ([s[0]] + StripBold(s[1..]))[1..] == StripBold(s[1..]);
    }
  }

  lemma {:induction false} EraseAllKeepsContent(s: string, c: char)
    requires IsMarkup(c)
    ensures Content(EraseAll(s, c)) == Content(s)
    decreases |s|
  {
    if s != [] {
      EraseAllKeepsContent(s[1..], c);
      if s[0] != c {
        assert ([s[0]] + EraseAll(s[1..], c))[1..] == EraseAll(s[1..], c);
      }
    }
  }

  lemma {:induction false} StripHeadingsKeepsContent(s: string)
    ensures Content(StripHeadings(s)) == Content(s)
    decreases |s|
  {
    if s != [] {
      if HeadingMarkerAt(s) {
        StripHeadingsKeepsContent(s[HashRun(s) + 1..]);
        DroppedMarkerKeepsContent(s);
      } else {
        StripHeadingsKeepsContent(s[1..]);
        KeptCharacterKeepsContent(s);
      }
    }
  }

  /** The step that deletes a heading marker keeps the content. */
  lemma DroppedMarkerKeepsContent(s: string)
    requires HeadingMarkerAt(s)
    requires Content(StripHeadings(s[HashRun(s) + 1..])) == Content(s[HashRun(s) + 1..])
    ensures Content(StripHeadings(s)) == Content(s)
  {
    StripHeadingsDropsMarker(s);
    HeadingMarkerIsMarkup(s);
  }

  /** The step that keeps the first character keeps the content. */
  lemma KeptCharacterKeepsContent(s: string)
    requires s != [] && !HeadingMarkerAt(s)
    requires Content(StripHeadings(s[1..])) == Content(s[1..])
    ensures Content(StripHeadings(s)) == Content(s)
  {
    StripHeadingsKeepsFirst(s);
    ContentCons(s[0], StripHeadings(s[1..]));
  }

  /** A heading marker is all markup. */
  lemma HeadingMarkerIsMarkup(s: string)
    requires HeadingMarkerAt(s)
    ensures Content(s) == Content(s[HashRun(s) + 1..])
  {
    HashRunIsMaximal(s, 6);
    ContentSkipsMarkup(s, HashRun(s) + 1);
  }

  lemma ContentCons(c: char, u: string)
    ensures Content([c] + u) == (if IsMarkup(c) then [] else [c]) + Content(u)
  {
    assert ([c] + u)[1..] == u;
  }

  /**
   * Only markup is deleted: every character that is not an asterisk, a
   * backtick, a hash or whitespace is copied, in its original order.
   */
  lemma PlainTextKeepsContent(text: string)
    ensures Content(PlainText(text)) == Content(text)
  {
    var s1 := StripBold(text);
    var s2 := EraseAll(s1, '*');
    var s3 := StripHeadings(s2);
    StripBoldKeepsContent(text);
    EraseAllKeepsContent(s1, '*');
    StripHeadingsKeepsContent(s2);
    EraseAllKeepsContent(s3, '`');
  }

  // Text without markup, and runs of hashes.

  lemma {:induction false} StripBoldWithoutAsterisks(s: string)
    requires '*' !in s
    ensures StripBold(s) == s
    decreases |s|
  {
    if s != [] {
      assert s[0] in s;
      assert forall x :: x in s[1..] ==> x in s;
      StripBoldWithoutAsterisks(s[1..]);
      assert [s[0]] + s[1..] == s;
    }
  }

  lemma {:induction false} EraseAllAbsent(s: string, c: char)
    requires c !in s
    ensures EraseAll(s, c) == s
    decreases |s|
  {
    if s != [] {
      assert s[0] in s;
      assert forall x :: x in s[1..] ==> x in s;
      EraseAllAbsent(s[1..], c);
      assert [s[0]] + s[1..] == s;
    }
  }

  lemma {:induction false} StripHeadingsWithoutHashes(s: string)
    requires '#' !in s
    ensures StripHeadings(s) == s
    decreases |s|
  {
    if s != [] {
      assert s[0] in s;
      assert forall x :: x in s[1..] ==> x in s;
      assert HashRun(s) == 0;
      StripHeadingsWithoutHashes(s[1..]);
      assert [s[0]] + s[1..] == s;
    }
  }

  /** Text without hashes in front of a heading marker passes through the third deletion unchanged. */
  lemma {:induction false} StripHeadingsAfterHashFree(p: string, h: string)
    requires '#' !in p
    ensures StripHeadings(p + h) == p + StripHeadings(h)
    decreases |p|
  {
    if p == [] {
      assert p + h == h;
    } else {
      var s := p + h;
      assert !HeadingMarkerAt(s) by {
        assert s[0] == p[0] && p[0] in p;
        assert HashRunUpTo(s, 6) == 0;
      }
      calc {
        StripHeadings(s);
        == { StripHeadingsKeepsFirst(s); assert s[0] == p[0] && s[1..] == p[1..] + h; }
        [p[0]] + StripHeadings(p[1..] + h);
        == { assert forall x :: x in p[1..] ==> x in p; StripHeadingsAfterHashFree(p[1..], h); }
        [p[0]] + (p[1..] + StripHeadings(h));
        == { assert [p[0]] + p[1..] == p; }
        p + StripHeadings(h);
      }
    }
  }

  /** Text with no asterisk, hash or backtick is copied exactly as it is. */
  lemma PlainTextOfProse(text: string)
    requires '*' !in text && '#' !in text && '`' !in text
    ensures PlainText(text) == text
  {
    StripBoldWithoutAsterisks(text);
    EraseAllAbsent(text, '*');
    StripHeadingsWithoutHashes(text);
    EraseAllAbsent(text, '`');
  }

  /** `n` hash characters. */
  function Hashes(n: nat): (r: string)
    ensures |r| == n
  {
    if n == 0 then "" else "#" + Hashes(n - 1)
  }

  lemma {:induction false} HashesAreHashes(n: nat)
    ensures forall i :: 0 <= i < n ==> Hashes(n)[i] == '#'
  {
    if n > 0 {
      HashesAreHashes(n - 1);
      assert forall i :: 1 <= i < n ==> Hashes(n)[i] == Hashes(n - 1)[i - 1];
    }
  }

  lemma {:induction false} HashRunOfHashes(n: nat, rest: string, limit: nat)
    requires rest == [] || rest[0] != '#'
    ensures HashRunUpTo(Hashes(n) + rest, limit) == if n < limit then n else limit
    decreases n
  {
    if n == 0 {
      assert Hashes(n) + rest == rest;
    } else if limit > 0 {
      assert (Hashes(n) + rest)[1..] == Hashes(n - 1) + rest;
      HashRunOfHashes(n - 1, rest, limit - 1);
    }
  }

  /**
   * A run of `n` hashes followed by whitespace: up to six hashes go together
   * with the whitespace; of a longer run only the last six do.
   */
  lemma {:induction false} StripHeadingsOfHashRun(n: nat, w: char, t: string)
    requires 1 <= n && IsWhitespace(w)
    ensures StripHeadings(Hashes(n) + [w] + t) == Hashes(if n > 6 then n - 6 else 0) + StripHeadings(t)
    decreases n
  {
    if n <= 6 {
      calc {
        StripHeadings(Hashes(n) + [w] + t);
        == { StripHeadingsOfShortRun(n, w, t); }
        StripHeadings(t);
        == { assert Hashes(0) == ""; }
        Hashes(0) + StripHeadings(t);
      }
    } else {
      calc {
        StripHeadings(Hashes(n) + [w] + t);
        == { StripHeadingsOfLongRun(n, w, t); }
        "#" + StripHeadings(Hashes(n - 1) + [w] + t);
        == { StripHeadingsOfHashRun(n - 1, w, t); }
        "#" + (Hashes(n - 7) + StripHeadings(t));
        == { assert Hashes(n - 6) == "#" + Hashes(n - 7); }
        Hashes(n - 6) + StripHeadings(t);
      }
    }
  }

  /** Up to six hashes and the whitespace after them go as one match. */
  lemma StripHeadingsOfShortRun(n: nat, w: char, t: string)
    requires 1 <= n <= 6 && IsWhitespace(w)
    ensures StripHeadings(Hashes(n) + [w] + t) == StripHeadings(t)
  {
    var s := Hashes(n) + [w] + t;
    assert HeadingMarkerAt(s) && HashRun(s) == n by {
      assert s == Hashes(n) + ([w] + t);
      HashRunOfHashes(n, [w] + t, 6);
      assert s[n] == w;
    }
    assert s[n + 1..] == t;
    StripHeadingsDropsMarker(s);
  }

  /** Before a run of more than six hashes the scan keeps the first hash and moves on. */
  lemma StripHeadingsOfLongRun(n: nat, w: char, t: string)
    requires 6 < n && IsWhitespace(w)
    ensures StripHeadings(Hashes(n) + [w] + t) == "#" + StripHeadings(Hashes(n - 1) + [w] + t)
  {
    var s := Hashes(n) + [w] + t;
    var u := Hashes(n - 1) + [w] + t;
    assert s == ['#'] + u;
    assert !HeadingMarkerAt(s) by {
      assert s == Hashes(n) + ([w] + t);
      HashRunOfHashes(n, [w] + t, 6);
      HashesAreHashes(n);
      assert s[6] == Hashes(n)[6] == '#' && !IsWhitespace('#');
    }
    calc {
      StripHeadings(s);
      == { StripHeadingsKeepsFirst(s); }
      [s[0]] + StripHeadings(s[1..]);
      == { assert s[0] == '#' && s[1..] == u; }
      "#" + StripHeadings(u);
    }
  }

  lemma StripHeadingsDropsMarker(s: string)
    requires HeadingMarkerAt(s)
    ensures StripHeadings(s) == StripHeadings(s[HashRun(s) + 1..])
  {
  }

  lemma StripHeadingsKeepsFirst(s: string)
    requires s != [] && !HeadingMarkerAt(s)
    ensures StripHeadings(s) == [s[0]] + StripHeadings(s[1..])
  {
  }

  // Worked inputs.

  /** Text with no asterisk, hash or backtick. */
  predicate IsProse(s: string) {
    '*' !in s && '#' !in s && '`' !in s
  }

  /**
   * A heading marker anywhere in a line, not only at its start, is deleted
   * together with the one whitespace character after it; of a run longer than
   * six hashes the leading ones stay.
   */
  lemma HeadingMarkerInProse(p: string, n: nat, w: char, q: string)
    requires IsProse(p) && IsProse(q) && 1 <= n && IsWhitespace(w)
    ensures PlainText(p + Hashes(n) + [w] + q) == p + Hashes(if n > 6 then n - 6 else 0) + q
  {
    var h := Hashes(n) + [w] + q;
    var s := p + h;
    var k := if n > 6 then n - 6 else 0;
    var r := p + Hashes(k) + q;
    assert s == p + Hashes(n) + [w] + q;
    assert '*' !in s && '`' !in s by {
      assert '*' !in Hashes(n) && '`' !in Hashes(n) by { HashesAreHashes(n); }
      assert !IsWhitespace('*') && !IsWhitespace('`');
      assert s == p + (Hashes(n) + ([w] + q));
    }
    assert '`' !in r by {
      assert '`' !in Hashes(k) by { HashesAreHashes(k); }
      assert r == p + (Hashes(k) + q);
    }
    calc {
      PlainText(s);
      == { StripBoldWithoutAsterisks(s); EraseAllAbsent(s, '*'); }
      EraseAll(StripHeadings(s), '`');
      == { StripHeadingsAfterHashFree(p, h); }
      EraseAll(p + StripHeadings(h), '`');
      == { StripHeadingsOfHashRun(n, w, q); StripHeadingsWithoutHashes(q); }
      EraseAll(p + (Hashes(k) + q), '`');
      == { assert p + (Hashes(k) + q) == r; EraseAllAbsent(r, '`'); }
      r;
    }
  }

  /** A hash followed by a backtick is no heading marker, so the hash stays. */
  lemma HashBeforeBacktick(w: char, q: string)
    requires IsWhitespace(w) && IsProse(q)
    ensures PlainText("#`" + [w] + q) == "#" + [w] + q
  {
    var u := [w] + q;
    assert IsProse(u) by {
      assert !IsWhitespace('*') && !IsWhitespace('`') && !IsWhitespace('#');
    }
    var t := "`" + u;
    var s := "#" + t;
    assert s == "#`" + [w] + q;
    assert StripBold(s) == s && EraseAll(s, '*') == s by {
      StripBoldWithoutAsterisks(s);
      EraseAllAbsent(s, '*');
    }
    assert StripHeadings(s) == s by {
      assert s[1..] == t && t[0] == '`';
      assert HashRunUpTo(t, 5) == 0;
      assert HashRun(s) == 1;
      StripHeadingsWithoutHashes(t);
    }
    assert EraseAll(s, '`') == "#" + u by {
      assert s[1..] == t && t[1..] == u;
      EraseAllAbsent(u, '`');
    }
  }

  // The first two steps together, and a mixed example.

  lemma EraseAllCons(x: char, u: string, c: char)
    ensures EraseAll([x] + u, c) == (if x == c then [] else [x]) + EraseAll(u, c)
  {
    assert ([x] + u)[1..] == u;
  }

  /** Deleting a character from a concatenation deletes it from each part. */
  lemma {:induction false} EraseAllConcat(x: string, y: string, c: char)
    ensures EraseAll(x + y, c) == EraseAll(x, c) + EraseAll(y, c)
    decreases |x|
  {
    if x == [] {
      assert x + y == y;
    } else {
      calc {
        EraseAll(x + y, c);
        == { assert x + y == [x[0]] + (x[1..] + y); EraseAllCons(x[0], x[1..] + y, c); }
        (if x[0] == c then [] else [x[0]]) + EraseAll(x[1..] + y, c);
        == { EraseAllConcat(x[1..], y, c); }
        (if x[0] == c then [] else [x[0]]) + (EraseAll(x[1..], c) + EraseAll(y, c));
        == { assert x == [x[0]] + x[1..]; EraseAllCons(x[0], x[1..], c); }
        EraseAll(x, c) + EraseAll(y, c);
      }
    }
  }

  /**
   * The first two deletions together delete exactly the asterisks: whatever
   * pairs the first one takes, the second one takes the rest.
   */
  lemma {:induction false} StripBoldThenEraseAsterisks(s: string)
    ensures EraseAll(StripBold(s), '*') == EraseAll(s, '*')
    decreases |s|
  {
    if |s| >= 2 && s[0] == '*' && s[1] == '*' {
      calc {
        EraseAll(StripBold(s), '*');
        == { StripBoldThenEraseAsterisks(s[2..]); }
        EraseAll(s[2..], '*');
        == { assert s[1..][0] == '*' && s[1..][1..] == s[2..]; }
        EraseAll(s[1..], '*');
        == 
        EraseAll(s, '*');
      }
    } else if s != [] {
      calc {
        EraseAll(StripBold(s), '*');
        == 
        EraseAll([s[0]] + StripBold(s[1..]), '*');
        == { EraseAllCons(s[0], StripBold(s[1..]), '*'); }
        (if s[0] == '*' then [] else [s[0]]) + EraseAll(StripBold(s[1..]), '*');
        == { StripBoldThenEraseAsterisks(s[1..]); }
        EraseAll(s, '*');
      }
    }
  }

  /** So the derivation is: delete the asterisks, then the heading markers, then the backticks. */
  lemma PlainTextDeletesAsterisksFirst(text: string)
    ensures PlainText(text) == EraseAll(StripHeadings(EraseAll(text, '*')), '`')
  {
    StripBoldThenEraseAsterisks(text);
  }

  /** Appending text without `c` appends it unchanged. */
  lemma EraseAllAppendAbsent(x: string, y: string, c: char)
    requires c !in y
    ensures EraseAll(x + y, c) == EraseAll(x, c) + y
  {
    EraseAllConcat(x, y, c);
    EraseAllAbsent(y, c);
  }

  /** Prose around the markup of a mixed example, after the asterisks are gone. */
  lemma MixedExampleAsterisks(a: string, b: string, c: string, d: string)
    requires IsProse(a) && IsProse(b) && IsProse(c) && IsProse(d)
    ensures EraseAll("**" + a + "** *" + b + "* # " + c + " `" + d + "`", '*')
      == a + " " + b + " # " + c + " `" + d + "`"
  {
    var x2 := "**" + a + "** *";
    var x4 := x2 + b + "* # ";
    calc {
      EraseAll(x4 + c + " `" + d + "`", '*');
      == { EraseAllAppendAbsent(x4 + c + " `" + d, "`", '*'); }
      EraseAll(x4 + c + " `" + d, '*') + "`";
      == { EraseAllAppendAbsent(x4 + c + " `", d, '*'); }
      EraseAll(x4 + c + " `", '*') + d + "`";
      == { EraseAllAppendAbsent(x4 + c, " `", '*'); }
      EraseAll(x4 + c, '*') + " `" + d + "`";
      == { EraseAllAppendAbsent(x4, c, '*'); }
      EraseAll(x4, '*') + c + " `" + d + "`";
      == { MixedExampleMiddle(x2, b); }
      EraseAll(x2, '*') + b + " # " + c + " `" + d + "`";
      == { MixedExampleStart(a); }
      a + " " + b + " # " + c + " `" + d + "`";
    }
  }

  lemma MixedExampleMiddle(x: string, b: string)
    requires IsProse(b)
    ensures EraseAll(x + b + "* # ", '*') == EraseAll(x, '*') + b + " # "
  {
    calc {
      EraseAll(x + b + "* # ", '*');
      == { EraseAllConcat(x + b, "* # ", '*'); }
      EraseAll(x + b, '*') + EraseAll("* # ", '*');
      == { assert "* # " == ['*'] + " # "; EraseAllCons('*', " # ", '*'); EraseAllAbsent(" # ", '*'); }
      EraseAll(x + b, '*') + " # ";
      == { EraseAllAppendAbsent(x, b, '*'); }
      EraseAll(x, '*') + b + " # ";
    }
  }

  lemma MixedExampleStart(a: string)
    requires IsProse(a)
    ensures EraseAll("**" + a + "** *", '*') == a + " "
  {
    calc {
      EraseAll("**" + a + "** *", '*');
      == { EraseAllConcat("**" + a, "** *", '*'); }
      EraseAll("**" + a, '*') + EraseAll("** *", '*');
      == { EraseAllConcat("**", a, '*'); EraseAllAbsent(a, '*'); }
      EraseAll("**", '*') + a + EraseAll("** *", '*');
      == { EraseAllCons('*', "*", '*'); EraseAllCons('*', "", '*'); }
      a + EraseAll("** *", '*');
      == { EraseAllCons('*', "* *", '*'); EraseAllCons('*', " *", '*'); EraseAllCons(' ', "*", '*');
           EraseAllCons('*', "", '*'); }
      a + " ";
    }
  }

  /** The backticks of a mixed example, after its heading marker is gone. */
  lemma MixedExampleBackticks(p: string, c: string, d: string)
    requires '`' !in p && IsProse(c) && IsProse(d)
    ensures EraseAll(p + c + " `" + d + "`", '`') == p + c + " " + d
  {
    assert EraseAll(" `", '`') == " " by {
      EraseAllCons('`', "", '`');
      EraseAllCons(' ', "`", '`');
    }
    assert EraseAll("`", '`') == "" by {
      EraseAllCons('`', "", '`');
    }
    EraseAllAbsent(p, '`');
    EraseAllAbsent(c, '`');
    EraseAllAbsent(d, '`');
    EraseAllConcat(p, c, '`');
    EraseAllConcat(p + c, " `", '`');
    EraseAllConcat(p + c + " `", d, '`');
    EraseAllConcat(p + c + " `" + d, "`", '`');
  }

  /**
   * A mixed example for the copy control, for any prose in place of its
   * words: "**bold** *em* # Head `code`" is copied as "bold em Head code".
   */
  lemma MixedMarkdownExample(a: string, b: string, c: string, d: string)
    requires IsProse(a) && IsProse(b) && IsProse(c) && IsProse(d)
    ensures PlainText("**" + a + "** *" + b + "* # " + c + " `" + d + "`") == a + " " + b + " " + c + " " + d
  {
    var text := "**" + a + "** *" + b + "* # " + c + " `" + d + "`";
    var p := a + " " + b + " ";
    var r := c + " `" + d + "`";
    assert '#' !in p && '`' !in p by {
      assert forall i :: 0 <= i < |p| ==> p[i] == ' ' || p[i] in a || p[i] in b by {
        forall i | 0 <= i < |p| ensures p[i] == ' ' || p[i] in a || p[i] in b {
          if i < |a| {
            assert p[i] == a[i];
          } else if |a| < i < |a| + 1 + |b| {
            assert p[i] == b[i - |a| - 1];
          }
        }
      }
    }
    assert '#' !in r by {
      assert forall i :: 0 <= i < |r| ==> r[i] == ' ' || r[i] == '`' || r[i] in c || r[i] in d by {
        forall i | 0 <= i < |r| ensures r[i] == ' ' || r[i] == '`' || r[i] in c || r[i] in d {
          if i < |c| {
            assert r[i] == c[i];
          } else if |c| + 2 <= i < |c| + 2 + |d| {
            assert r[i] == d[i - |c| - 2];
          }
        }
      }
    }
    calc {
      PlainText(text);
      == { PlainTextDeletesAsterisksFirst(text); }
      EraseAll(StripHeadings(EraseAll(text, '*')), '`');
      == { MixedExampleAsterisks(a, b, c, d); assert a + " " + b + " # " + c + " `" + d + "`" == p + ("# " + r); }
      EraseAll(StripHeadings(p + ("# " + r)), '`');
      == { StripHeadingsAfterHashFree(p, "# " + r); }
      EraseAll(p + StripHeadings("# " + r), '`');
      == { assert Hashes(1) + [' '] + r == "# " + r by { assert Hashes(0) == ""; }
           assert IsWhitespace(' ');
           StripHeadingsOfHashRun(1, ' ', r);
           assert Hashes(0) + StripHeadings(r) == StripHeadings(r) by { assert Hashes(0) == ""; }
           StripHeadingsWithoutHashes(r); }
      EraseAll(p + r, '`');
      == { assert p + r == p + c + " `" + d + "`"; MixedExampleBackticks(p, c, d); }
      p + c + " " + d;
    }
  }

  /**
   * The derivation is not idempotent: backticks go after heading markers, so
   * deleting a backtick can bring a hash next to whitespace, which a second
   * derivation would then delete.
   */
  lemma PlainTextNotIdempotent(w: char, q: string)
    requires IsWhitespace(w) && IsProse(q)
    ensures PlainText("#`" + [w] + q) == "#" + [w] + q
    ensures PlainText(PlainText("#`" + [w] + q)) == q
  {
    HashBeforeBacktick(w, q);
    HeadingMarkerInProse("", 1, w, q);
    assert Hashes(1) == "#" by {
      assert Hashes(0) == "";
    }
    assert "" + Hashes(1) + [w] + q == "#" + [w] + q;
    assert "" + Hashes(0) + q == q;
  }
}
