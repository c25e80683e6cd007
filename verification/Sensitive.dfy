/** The pattern for names and values that must not be kept, case-insensitive:
    password | passwd | token | secret | credential | private.?key | api.?key | client.?secret | connection.?string */
module Sensitive {
  /** Case folding as the pattern matcher does it for the letters the pattern uses. */
  function Fold(c: char): char {
    if 'A' <= c <= 'Z' then (c as int - 'A' as int + 'a' as int) as char
    else if c == '\U{0130}' || c == '\U{0131}' then 'i'
    else if c == '\U{017F}' then 's'
    else if c == '\U{212A}' then 'k'
    else c
  }

  /** The word stands at position i. */
  predicate At(s: string, i: nat, word: string) {
    i + |word| <= |s| && forall j :: 0 <= j < |word| ==> Fold(s[i + j]) == word[j]
  }

  /** first, then at most one character other than a line feed, then second. */
  predicate PairAt(s: string, i: nat, first: string, second: string) {
    var next := i + |first|;
    At(s, i, first) && (At(s, next, second) || (next < |s| && s[next] != '\n' && At(s, next + 1, second)))
  }

  predicate MatchesAt(s: string, i: nat) {
    || At(s, i, "password") || At(s, i, "passwd") || At(s, i, "token") || At(s, i, "secret") || At(s, i, "credential")
    || PairAt(s, i, "private", "key") || PairAt(s, i, "api", "key") || PairAt(s, i, "client", "secret")
    || PairAt(s, i, "connection", "string")
  }

  predicate Matches(s: string) { exists i :: 0 <= i < |s| && MatchesAt(s, i) }

  // ---- the pattern, stated as containment -----------------------------------------------------------------

  function Folded(s: string): string { seq(|s|, i requires 0 <= i < |s| => Fold(s[i])) }

  /** Besides the ASCII capitals only four letters are folded: the dotted and the dotless i, the long s, the kelvin. */
  lemma FoldExactly(c: char)
    ensures Fold(c) as int == if 65 <= c as int <= 90 then c as int + 32
                              else if c as int in {304, 305} then 105
                              else if c as int == 383 then 115
                              else if c as int == 8490 then 107
                              else c as int
  {
  }

  predicate StandsAt(s: string, i: int, word: string) { 0 <= i && i + |word| <= |s| && s[i..i + |word|] == word }

  ghost predicate Contains(s: string, word: string) { exists i :: StandsAt(s, i, word) }

  /** The two words with nothing or one character between them, and that no line feed. */
  ghost predicate ContainsPair(s: string, first: string, second: string) {
    Contains(s, first + second) || exists c: char :: c != '\n' && Contains(s, first + [c] + second)
  }

  lemma AtExactly(s: string, i: nat, word: string)
    ensures At(s, i, word) <==> StandsAt(Folded(s), i, word)
  {
    if i + |word| <= |s| {
      var part := Folded(s)[i..i + |word|];
      assert forall j :: 0 <= j < |word| ==> part[j] == Fold(s[i + j]);
      if At(s, i, word) { assert part == word; }
      if part == word { forall j | 0 <= j < |word| ensures Fold(s[i + j]) == word[j] { assert part[j] == word[j]; } }
    }
  }

  lemma Adjacent(s: string, i: int, first: string, second: string)
    ensures StandsAt(s, i, first + second) <==> StandsAt(s, i, first) && StandsAt(s, i + |first|, second)
  {
    var n := |first| + |second|;
    if 0 <= i && i + n <= |s| {
      assert s[i..i + n] == s[i..i + |first|] + s[i + |first|..i + |first| + |second|];
      assert s[i..i + n][..|first|] == s[i..i + |first|];
      assert s[i..i + n][|first|..] == s[i + |first|..i + |first| + |second|];
    }
  }

  /** With c between the words. */
  lemma Apart(s: string, i: int, first: string, c: char, second: string)
    ensures StandsAt(s, i, first + [c] + second) <==>
            && StandsAt(s, i, first) && StandsAt(s, i + |first| + 1, second)
            && 0 <= i + |first| < |s| && s[i + |first|] == c
  {
    Adjacent(s, i, first + [c], second);
    Adjacent(s, i, first, [c]);
    if 0 <= i + |first| < |s| { assert s[i + |first|..i + |first| + 1] == [s[i + |first|]]; }
  }

  lemma PairIsContained(s: string, i: nat, first: string, second: string)
    requires PairAt(s, i, first, second)
    ensures ContainsPair(Folded(s), first, second)
  {
    var t, next := Folded(s), i + |first|;
    AtExactly(s, i, first);
    if At(s, next, second) {
      AtExactly(s, next, second);
      Adjacent(t, i, first, second);
    } else {
      AtExactly(s, next + 1, second);
      Apart(t, i, first, t[next], second);
      FoldExactly(s[next]);
    }
  }

  lemma ContainedPair(s: string, first: string, second: string) returns (i: nat)
    requires first != "" && ContainsPair(Folded(s), first, second)
    ensures i < |s| && PairAt(s, i, first, second)
  {
    var t := Folded(s);
    if Contains(t, first + second) {
      var k :| StandsAt(t, k, first + second);
      i := k;
      Adjacent(t, i, first, second);
      AtExactly(s, i + |first|, second);
    } else {
      var c: char :| c != '\n' && Contains(t, first + [c] + second);
      var k :| StandsAt(t, k, first + [c] + second);
      i := k;
      Apart(t, i, first, c, second);
      FoldExactly(s[i + |first|]);
      AtExactly(s, i + |first| + 1, second);
    }
    AtExactly(s, i, first);
  }

  ghost predicate ContainsOne(t: string) {
    || Contains(t, "password") || Contains(t, "passwd") || Contains(t, "token") || Contains(t, "secret")
    || Contains(t, "credential") || ContainsPair(t, "private", "key") || ContainsPair(t, "api", "key")
    || ContainsPair(t, "client", "secret") || ContainsPair(t, "connection", "string")
  }

  lemma MatchIsContained(s: string, i: nat)
    requires MatchesAt(s, i)
    ensures ContainsOne(Folded(s))
  {
    if word :| word in ["password", "passwd", "token", "secret", "credential"] && At(s, i, word) {
      AtExactly(s, i, word);
      assert Contains(Folded(s), word);
    } else if PairAt(s, i, "private", "key") {
      PairIsContained(s, i, "private", "key");
    } else if PairAt(s, i, "api", "key") {
      PairIsContained(s, i, "api", "key");
    } else if PairAt(s, i, "client", "secret") {
      PairIsContained(s, i, "client", "secret");
    } else {
      PairIsContained(s, i, "connection", "string");
    }
  }

  lemma ContainedMatches(s: string)
    requires ContainsOne(Folded(s))
    ensures Matches(s)
  {
    var i: nat;
    if word :| word in ["password", "passwd", "token", "secret", "credential"] && Contains(Folded(s), word) {
      var k :| StandsAt(Folded(s), k, word);
      i := k;
      AtExactly(s, i, word);
    } else if ContainsPair(Folded(s), "private", "key") {
      i := ContainedPair(s, "private", "key");
    } else if ContainsPair(Folded(s), "api", "key") {
      i := ContainedPair(s, "api", "key");
    } else if ContainsPair(Folded(s), "client", "secret") {
      i := ContainedPair(s, "client", "secret");
    } else {
      i := ContainedPair(s, "connection", "string");
    }
    assert MatchesAt(s, i);
  }

  /** A text is sensitive exactly if it contains, in any case, one of these words or pairs of words. */
  lemma MatchesExactly(s: string)
    ensures var t := Folded(s);
            Matches(s) <==>
              || Contains(t, "password") || Contains(t, "passwd") || Contains(t, "token") || Contains(t, "secret")
              || Contains(t, "credential") || ContainsPair(t, "private", "key") || ContainsPair(t, "api", "key")
              || ContainsPair(t, "client", "secret") || ContainsPair(t, "connection", "string")
  {
    if i :| 0 <= i < |s| && MatchesAt(s, i) {
      MatchIsContained(s, i);
    } else if ContainsOne(Folded(s)) {
      ContainedMatches(s);
    }
  }

  // ---- truncation ----------------------------------------------------------------------------------------

  const LIMIT := 600

  function Truncate(s: string): (t: string)
    ensures |s| <= 600 ==> t == s
    ensures |s| > 600 ==> |t| == 603 && t[..600] == s[..600] && t[600..] == "..."
  {
    if |s| > LIMIT then s[..LIMIT] + "..." else s
  }

  predicate Letters(word: string) { word != "" && forall j :: 0 <= j < |word| ==> 'a' <= word[j] <= 'z' }

  /** No word reaches into the dots of a truncated value. */
  lemma AtBeforeDots(s: string, i: nat, word: string)
    requires |s| > LIMIT && Letters(word) && At(Truncate(s), i, word)
    ensures At(s, i, word) && i + |word| <= LIMIT
  {
    var t := Truncate(s);
    // The last letter is not a dot, so the whole word lies before the cut.
    var last := |word| - 1;
    assert Fold(t[i + last]) == word[last];
  }

  lemma PairBeforeDots(s: string, i: nat, first: string, second: string)
    requires |s| > LIMIT && Letters(first) && Letters(second) && PairAt(Truncate(s), i, first, second)
    ensures PairAt(s, i, first, second)
  {
    var next := i + |first|;
    AtBeforeDots(s, i, first);
    if At(Truncate(s), next, second) {
      AtBeforeDots(s, next, second);
    } else {
      AtBeforeDots(s, next + 1, second);
    }
  }

  lemma WordsAreLetters()
    ensures Letters("password") && Letters("passwd") && Letters("token") && Letters("secret") && Letters("credential")
    ensures Letters("private") && Letters("key") && Letters("api") && Letters("client") && Letters("connection")
    ensures Letters("string")
  {
  }

  /** Cutting a value short never makes it match. */
  lemma TruncationStaysClean(s: string)
    requires !Matches(s)
    ensures !Matches(Truncate(s))
  {
    var t := Truncate(s);
    if |s| > LIMIT && Matches(t) {
      WordsAreLetters();
      var i :| 0 <= i < |t| && MatchesAt(t, i);
      if word :| word in ["password", "passwd", "token", "secret", "credential"] && At(t, i, word) {
        AtBeforeDots(s, i, word);
      } else if PairAt(t, i, "private", "key") {
        PairBeforeDots(s, i, "private", "key");
      } else if PairAt(t, i, "api", "key") {
        PairBeforeDots(s, i, "api", "key");
      } else if PairAt(t, i, "client", "secret") {
        PairBeforeDots(s, i, "client", "secret");
      } else {
        PairBeforeDots(s, i, "connection", "string");
      }
      assert MatchesAt(s, i);
    }
  }
}
