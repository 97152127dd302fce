/** What the steps that make a stored name come to, told without the steps
    (apps/api/core/uploads.py), and what a door takes (apps/api/core/storage_door.py). */
module StorageRules {
  import opened StorageDoor
  import opened StorageNames
  import opened Text

  // ---- characters -------------------------------------------------------------------

  /** Letters, digits, the dot, the underscore and the dash. */
  lemma {:induction false} SafeWhen(c: char)
    ensures Safe(c) <==>
            var n := c as int;
            n == 45 || n == 46 || n == 95 || 48 <= n <= 57 || 65 <= n <= 90 || 97 <= n <= 122
  {
  }

  /** Control characters, the marks of no width and of direction, and the byte order mark. */
  lemma {:induction false} HiddenWhen(c: char)
    ensures Hidden(c) <==>
            var n := c as int;
            || n <= 31 || (n >= 127 && n <= 159) || (n >= 8203 && n <= 8207) || (n >= 8232 && n <= 8238)
            || (n >= 8294 && n <= 8297) || n == 65279
  {
  }

  ghost predicate IsDots(c: char) { c == '.' || c == '_' || c == '-' || c == ' ' }

  ghost predicate AllDots(s: string) { forall i :: 0 <= i < |s| ==> IsDots(s[i]) }

  ghost predicate SolidEnds(m: string) { m != [] && !IsDots(m[0]) && !IsDots(m[|m| - 1]) }

  // ---- the steps --------------------------------------------------------------------

  /** Cut where a safe character stands on either side, a stem is whitelisted piece by
      piece; safe pieces stay, and a piece of none becomes one underscore. */
  lemma {:induction false} WhitelistJoins(x: string, y: string)
    requires x == [] || y == [] || Safe(x[|x| - 1]) || Safe(y[0])
    ensures Whitelisted(x + y) == Whitelisted(x) + Whitelisted(y)
  {
    if x == [] {
      assert x + y == y;
    } else if y == [] {
      assert x + y == x;
    } else {
      assert (x + y)[1..] == x[1..] + y;
      WhitelistJoins(x[1..], y);
      if |x| == 1 {
        assert Whitelisted(x[1..]) == [];
      }
    }
  }

  lemma {:induction false} UnsafeIsOneUnderscore(s: string)
    requires s != [] && forall i :: 0 <= i < |s| ==> !Safe(s[i])
    ensures Whitelisted(s) == "_"
  {
    if |s| > 1 {
      UnsafeIsOneUnderscore(s[1..]);
    } else {
      assert Whitelisted(s[1..]) == [];
    }
  }

  /** Cut where the character does not stand on both sides, runs are made single piece
      by piece; a piece without doubles stays, and a run of the character becomes one. */
  lemma {:induction false} SingleJoins(x: string, y: string, c: char)
    requires x == [] || y == [] || x[|x| - 1] != c || y[0] != c
    ensures Single(x + y, c) == Single(x, c) + Single(y, c)
  {
    if x == [] {
      assert x + y == y;
    } else if y == [] {
      assert x + y == x;
    } else {
      assert (x + y)[1..] == x[1..] + y;
      SingleJoins(x[1..], y, c);
      if |x| == 1 {
        assert x[1..] + y == y && x == [x[0]];
      }
    }
  }

  lemma {:induction false} RunIsOne(s: string, c: char)
    requires s != [] && forall i :: 0 <= i < |s| ==> s[i] == c
    ensures Single(s, c) == [c]
  {
    if |s| > 1 {
      RunIsOne(s[1..], c);
    } else {
      assert s == [s[0]];
    }
  }

  /** What is shaved off is the dots, dashes, underscores and blanks around a name. */
  lemma {:induction false} ShaveTakes(a: string, m: string, b: string)
    requires AllDots(a) && AllDots(b) && SolidEnds(m)
    ensures Shave(a + m + b) == m
  {
    assert a + m + b == a + (m + b);
    ShaveLeftTakes(a, m + b);
    ShaveRightTakes(m, b);
  }

  lemma {:induction false} ShaveLeftTakes(a: string, m: string)
    requires AllDots(a) && m != [] && !IsDots(m[0])
    ensures ShaveLeft(a + m) == m
  {
    if a == [] {
      assert a + m == m;
    } else {
      assert (a + m)[1..] == a[1..] + m;
      ShaveLeftTakes(a[1..], m);
    }
  }

  lemma {:induction false} ShaveRightTakes(m: string, b: string)
    requires AllDots(b) && m != [] && !IsDots(m[|m| - 1])
    ensures ShaveRight(m + b) == m
  {
    if b == [] {
      assert m + b == m;
    } else {
      assert (m + b)[..|m + b| - 1] == m + b[..|b| - 1];
      ShaveRightTakes(m, b[..|b| - 1]);
    }
  }

  // ---- whole names ------------------------------------------------------------------

  /** Dots and the like, and characters a key does not keep. */
  ghost predicate IsWrapping(s: string) { forall i :: 0 <= i < |s| ==> IsDots(s[i]) || !Safe(s[i]) }

  lemma {:induction false} WrappingWhitens(s: string)
    requires IsWrapping(s)
    ensures AllDots(Whitelisted(s))
  {
    if s != [] {
      WrappingWhitens(s[1..]);
    }
  }

  lemma {:induction false} DotsStayDots(s: string, c: char)
    requires AllDots(s)
    ensures AllDots(Single(s, c))
  {
    if |s| >= 2 {
      DotsStayDots(s[1..], c);
    }
  }

  lemma {:induction false} EndsStay(s: string, c: char)
    requires s != []
    ensures var w := Whitelisted(s);
            w != [] && (Safe(s[0]) ==> w[0] == s[0]) && (Safe(s[|s| - 1]) ==> w[|w| - 1] == s[|s| - 1])
    ensures var t := Single(s, c); t != [] && t[0] == s[0] && t[|t| - 1] == s[|s| - 1]
  {
    if |s| > 1 {
      EndsStay(s[1..], c);
    } else {
      assert Whitelisted(s[1..]) == [];
    }
  }

  /** What stands around a name does not change what it is stored as, nor how much of
      it is kept. */
  lemma {:induction false} WrappingIsDropped(a: string, m: string, b: string, cap: nat)
    requires IsWrapping(a) && IsWrapping(b) && m != [] && IsAlnum(m[0]) && IsAlnum(m[|m| - 1])
    ensures Tidy(a + m + b, cap) == Tidy(m, cap)
  {
    var w := Whitelisted(m);
    WhitelistJoins(a + m, b);
    WhitelistJoins(a, m);
    WrappingWhitens(a);
    WrappingWhitens(b);
    EndsStay(m, '.');
    CleanedAround(Whitelisted(a), w, Whitelisted(b));
    CleanedAround([], w, []);
    assert [] + w + [] == w;
    SameCleaned(a + m + b, m, cap);
  }

  lemma {:induction false} SameCleaned(x: string, y: string, cap: nat)
    requires Shave(Singled(Whitelisted(x))) == Shave(Singled(Whitelisted(y)))
    ensures Tidy(x, cap) == Tidy(y, cap)
  {
  }

  lemma {:induction false} CleanedAround(a: string, w: string, b: string)
    requires AllDots(a) && AllDots(b) && SolidEnds(w)
    ensures Shave(Singled(a + w + b)) == Singled(w)
  {
    SingledAround(a, w, b, '.');
    var a1, d, b1 := Single(a, '.'), Single(w, '.'), Single(b, '.');
    SingledAround(a1, d, b1, '_');
    ShaveTakes(Single(a1, '_'), Single(d, '_'), Single(b1, '_'));
  }

  lemma {:induction false} SingledAround(a: string, m: string, b: string, c: char)
    requires AllDots(a) && AllDots(b) && SolidEnds(m) && IsDots(c)
    ensures Single(a + m + b, c) == Single(a, c) + Single(m, c) + Single(b, c)
    ensures AllDots(Single(a, c)) && AllDots(Single(b, c)) && SolidEnds(Single(m, c))
  {
    SingleJoins(a + m, b, c);
    SingleJoins(a, m, c);
    DotsStayDots(a, c);
    DotsStayDots(b, c);
    EndsStay(m, c);
  }

  /** Words of letters and digits, each but the first behind a gap of characters a key
      does not keep. */
  ghost predicate IsWord(w: string) { w != [] && forall i :: 0 <= i < |w| ==> IsAlnum(w[i]) }

  ghost predicate IsGap(g: string) { g != [] && forall i :: 0 <= i < |g| ==> !Safe(g[i]) }

  function Spaced(words: seq<string>, gaps: seq<string>): string
    requires |words| == |gaps|
  {
    if words == [] then "" else gaps[0] + words[0] + Spaced(words[1..], gaps[1..])
  }

  function Underscored(words: seq<string>): string {
    if words == [] then "" else "_" + words[0] + Underscored(words[1..])
  }

  lemma {:induction false} GapsBecomeUnderscores(words: seq<string>, gaps: seq<string>)
    requires |words| == |gaps|
    requires forall i :: 0 <= i < |words| ==> IsWord(words[i]) && IsGap(gaps[i])
    ensures Whitelisted(Spaced(words, gaps)) == Underscored(words)
  {
    if words != [] {
      var g, w, rest := gaps[0], words[0], Spaced(words[1..], gaps[1..]);
      GapsBecomeUnderscores(words[1..], gaps[1..]);
      WhitelistJoins(g + w, rest);
      WhitelistJoins(g, w);
      UnsafeIsOneUnderscore(g);
      WhitelistedIsSafe(w);
    }
  }

  lemma {:induction false} UnderscoredIs(words: seq<string>)
    requires forall i :: 0 <= i < |words| ==> IsWord(words[i])
    ensures var u := Underscored(words);
            && AllSafe(u) && NoDouble(u, '.') && NoDouble(u, '_')
            && (u != [] ==> u[0] == '_' && IsAlnum(u[|u| - 1]))
  {
    if words != [] {
      UnderscoredIs(words[1..]);
      JoinedWord(words[0], Underscored(words[1..]));
    }
  }

  lemma {:induction false} JoinedWord(w: string, rest: string)
    requires IsWord(w) && AllSafe(rest) && NoDouble(rest, '.') && NoDouble(rest, '_')
    requires rest != [] ==> rest[0] == '_' && IsAlnum(rest[|rest| - 1])
    ensures var t := w + rest;
            && AllSafe(t) && NoDouble(t, '.') && NoDouble(t, '_') && IsAlnum(t[0]) && IsAlnum(t[|t| - 1])
    ensures var u := "_" + w + rest;
            && AllSafe(u) && NoDouble(u, '.') && NoDouble(u, '_') && u[0] == '_' && IsAlnum(u[|u| - 1])
  {
    var t := w + rest;
    forall i | 0 < i < |t| ensures !(t[i - 1] == '.' && t[i] == '.') && !(t[i - 1] == '_' && t[i] == '_') {
      if i <= |w| {
        assert IsAlnum(t[i - 1]);
      } else {
        assert t[i - 1] == rest[i - 1 - |w|] && t[i] == rest[i - |w|];
        assert !(rest[i - 1 - |w|] == '.' && rest[i - |w|] == '.');
        assert !(rest[i - 1 - |w|] == '_' && rest[i - |w|] == '_');
      }
    }
    assert "_" + w + rest == ['_'] + t;
    Prepended('_', t, '.');
    Prepended('_', t, '_');
  }

  /** A name of words is stored as the words with one underscore between each two. */
  lemma {:induction false} WordsAreJoined(word: string, words: seq<string>, gaps: seq<string>, cap: nat)
    requires IsWord(word) && |words| == |gaps|
    requires forall i :: 0 <= i < |words| ==> IsWord(words[i]) && IsGap(gaps[i])
    requires |word + Underscored(words)| <= cap
    ensures Tidy(word + Spaced(words, gaps), cap) == word + Underscored(words)
  {
    WordsWhiten(word, words, gaps);
    UnderscoredIs(words);
    JoinedWord(word, Underscored(words));
    WhitensToTidy(word + Spaced(words, gaps), word + Underscored(words), cap);
  }

  lemma {:induction false} WhitensToTidy(stem: string, n: string, cap: nat)
    requires Whitelisted(stem) == n && AllSafe(n) && NoDouble(n, '.') && NoDouble(n, '_') && n != [] && |n| <= cap
    requires IsAlnum(n[0]) && IsAlnum(n[|n| - 1])
    ensures Tidy(stem, cap) == n
  {
    WhitelistedIsSafe(n);
    TidyFixed(n, cap);
    SameCleaned(stem, n, cap);
  }

  lemma {:induction false} WordsWhiten(word: string, words: seq<string>, gaps: seq<string>)
    requires IsWord(word) && |words| == |gaps|
    requires forall i :: 0 <= i < |words| ==> IsWord(words[i]) && IsGap(gaps[i])
    ensures Whitelisted(word + Spaced(words, gaps)) == word + Underscored(words)
  {
    WhitelistJoins(word, Spaced(words, gaps));
    WhitelistedIsSafe(word);
    GapsBecomeUnderscores(words, gaps);
  }

  /** A tidy name of a hundred characters or fewer, without a dot, is stored as it is. */
  lemma {:induction false} TidyIsStored(f: Folding, n: string)
    requires GoodFolding(f) && IsTidy(n, 100) && '.' !in n
    ensures StorageName(f, n, "") == n
  {
    SplitsPlain(f, n);
    SafeIsPlain(n);
    TidyFixed(n, 100);
  }

  // ---- the stem and the extension ---------------------------------------------------

  lemma {:induction false} VisibleJoins(x: string, y: string)
    ensures Visible(x + y) == Visible(x) + Visible(y)
  {
    if x == [] {
      assert x + y == y;
    } else {
      assert (x + y)[1..] == x[1..] + y;
      VisibleJoins(x[1..], y);
    }
  }

  /** `b` is what follows the last separator of `s`. */
  ghost predicate IsBase(s: string, front: string, b: string) {
    && s == front + b && '/' !in b && '\\' !in b
    && (front != [] ==> front[|front| - 1] == '/' || front[|front| - 1] == '\\')
  }

  lemma {:induction false} BasenameIs(s: string) returns (front: string)
    ensures IsBase(s, front, Basename(s))
  {
    if s == [] || s[|s| - 1] == '/' || s[|s| - 1] == '\\' {
      front := s;
      assert s == s + [];
    } else {
      var t, c := s[..|s| - 1], s[|s| - 1];
      front := BasenameIs(t);
      assert s == t + [c] == front + (Basename(t) + [c]);
    }
  }

  /** Cut at the last dot, unless there is none behind the first character. */
  ghost predicate IsSplit(base: string, stem: string, extension: string) {
    || (stem == base && extension == "" && forall i :: 0 < i < |base| ==> base[i] != '.')
    || (exists tail :: stem != "" && base == stem + "." + tail && '.' !in tail && extension == Lower(Strip(tail)))
  }

  /** A caller's name is cut so: hidden characters dropped, what follows the last
      separator taken without the blanks around it, and cut at its last dot. */
  lemma {:induction false} SplitIs(f: Folding, raw: string) returns (front: string, b: string)
    ensures IsBase(Visible(f.normal(raw)), front, b)
    ensures IsSplit(Strip(b), SplitExtension(f, raw).0, SplitExtension(f, raw).1)
  {
    b := Basename(Visible(f.normal(raw)));
    front := BasenameIs(Visible(f.normal(raw)));
    SplitAtDotIs(Strip(b));
  }

  lemma {:induction false} SplitAtDotIs(base: string)
    ensures IsSplit(base, SplitAtDot(base).0, SplitAtDot(base).1)
  {
    var k := LastDot(base);
    if 0 < k < |base| {
      var tail := base[k + 1..];
      assert base == base[..k] + "." + tail;
    }
  }

  // ---- the door ---------------------------------------------------------------------

  /** One to sixty-four characters, the first a letter or a digit, the rest those of a
      stored name and blanks, and no two dots together. */
  lemma {:induction false} SegmentWhen(s: string)
    ensures IsSegment(s) <==>
            && 1 <= |s| <= 64 && Safe(s[0]) && s[0] != '.' && s[0] != '_' && s[0] != '-'
            && (forall i :: 0 <= i < |s| ==> Safe(s[i]) || s[i] == ' ')
            && !exists before, behind :: s == before + ".." + behind
  {
    if before, behind :| s == before + ".." + behind {
      assert s[(|before| + 1) - 1] == '.' && s[|before| + 1] == '.';
    }
    if !NoDouble(s, '.') {
      var i :| 0 < i < |s| && s[i - 1] == '.' && s[i] == '.';
      assert s == s[..i - 1] + ".." + s[i + 1..];
    }
  }

  /** Backslashes, question marks and hashes, control characters and marks of direction. */
  lemma {:induction false} NeverWhen(c: char)
    ensures Never(c) <==>
            var n := c as int;
            || n == 92 || n == 63 || n == 35 || n <= 31 || (n >= 127 && n <= 159)
            || (n >= 8234 && n <= 8238) || (n >= 8294 && n <= 8297)
  {
  }

  /** The value of a hexadecimal digit; sixteen for any other character. */
  function Hex(c: char): nat {
    if '0' <= c <= '9' then c as int - '0' as int
    else if 'a' <= c <= 'f' then c as int - 'a' as int + 10
    else if 'A' <= c <= 'F' then c as int - 'A' as int + 10
    else 16
  }

  /** A percent sign and two digits that stand for a slash, a dot or a backslash. */
  lemma {:induction false} EncodedWhen(s: string, i: nat)
    requires i + 2 < |s|
    ensures Encoded(s, i) <==>
            && s[i] == '%' && Hex(s[i + 1]) < 16 && Hex(s[i + 2]) < 16
            && var n := 16 * Hex(s[i + 1]) + Hex(s[i + 2]);
               n == '/' as int || n == '.' as int || n == '\\' as int
  {
    var t := s[i + 1..i + 3];
    assert t == [s[i + 1], s[i + 2]];
    assert t == "2f" <==> t[0] == '2' && t[1] == 'f';
  }

  /** A part names something unless it is made of dots alone, two at most. */
  lemma {:induction false} NamesWhen(part: string)
    ensures Names(part) <==> |part| > 2 || exists i :: 0 <= i < |part| && part[i] != '.'
  {
    if |part| == 1 {
      assert part == [part[0]];
    } else if |part| == 2 {
      assert part == [part[0], part[1]];
    }
  }
}
