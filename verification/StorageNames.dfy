/** File names made safe for a storage key (apps/api/core/uploads.py). */
module StorageNames {
  import opened Decimal
  import opened Text

  predicate IsUpper(c: char) { 'A' <= c <= 'Z' }
  predicate IsLower(c: char) { 'a' <= c <= 'z' }
  predicate IsAlnum(c: char) { IsUpper(c) || IsLower(c) || IsDigit(c) }

  /** What a storage key keeps of a name. */
  predicate Safe(c: char) { IsAlnum(c) || c == '.' || c == '_' || c == '-' }

  /** What is taken off both ends of a name. */
  predicate Edge(c: char) { c == ' ' || c == '.' || c == '_' || c == '-' }

  predicate AllSafe(s: string) { forall i :: 0 <= i < |s| ==> Safe(s[i]) }

  predicate NoDouble(s: string, c: char) { forall i :: 0 < i < |s| ==> !(s[i - 1] == c && s[i] == c) }

  /** Every run of unsafe characters becomes one underscore. */
  function Whitelisted(s: string): string {
    if s == [] then []
    else if Safe(s[0]) then [s[0]] + Whitelisted(s[1..])
    else if |s| > 1 && !Safe(s[1]) then Whitelisted(s[1..])
    else ['_'] + Whitelisted(s[1..])
  }

  /** Every run of `c` becomes one. */
  function Single(s: string, c: char): string {
    if |s| < 2 then s
    else if s[0] == c && s[1] == c then Single(s[1..], c)
    else [s[0]] + Single(s[1..], c)
  }

  function ShaveLeft(s: string): string { if s != [] && Edge(s[0]) then ShaveLeft(s[1..]) else s }

  function ShaveRight(s: string): string { if s != [] && Edge(s[|s| - 1]) then ShaveRight(s[..|s| - 1]) else s }

  function Shave(s: string): string { ShaveRight(ShaveLeft(s)) }

  function Cut(s: string, cap: nat): string { if |s| <= cap then s else s[..cap] }

  const NAME_CAP: nat := 100

  function Singled(s: string): string { Single(Single(s, '.'), '_') }

  /** The name of a key from a stem already folded to ASCII. */
  function Tidy(stem: string, cap: nat): string {
    var cut := Shave(Cut(Shave(Singled(Whitelisted(stem))), cap));
    if cut == "" then "upload" else cut
  }

  /** A tidy name: safe characters, no doubled dot or underscore, a letter or
      digit at both ends, within the cap. */
  predicate IsTidy(s: string, cap: nat) {
    && s != [] && |s| <= cap && AllSafe(s) && NoDouble(s, '.') && NoDouble(s, '_')
    && !Edge(s[0]) && !Edge(s[|s| - 1])
  }

  // ---- what each step leaves --------------------------------------------------------

  lemma {:induction false} WhitelistedIsSafe(s: string)
    ensures AllSafe(Whitelisted(s))
    ensures AllSafe(s) ==> Whitelisted(s) == s
  {
    if s != [] {
      WhitelistedIsSafe(s[1..]);
      if AllSafe(s) {
        assert s == [s[0]] + s[1..];
      }
    }
  }

  lemma {:induction false} SingleIs(s: string, c: char, d: char)
    ensures AllSafe(s) ==> AllSafe(Single(s, c))
    ensures s != [] ==> Single(s, c) != [] && Single(s, c)[0] == s[0]
    ensures NoDouble(Single(s, c), c)
    ensures NoDouble(s, d) ==> NoDouble(Single(s, c), d)
    ensures NoDouble(s, c) ==> Single(s, c) == s
  {
    if |s| >= 2 {
      var rest := Single(s[1..], c);
      SingleIs(s[1..], c, d);
      assert s == [s[0]] + s[1..];
      Prepended(s[0], s[1..], c);
      Prepended(s[0], s[1..], d);
      Prepended(s[0], rest, c);
      Prepended(s[0], rest, d);
    }
  }

  lemma {:induction false} Prepended(x: char, s: string, c: char)
    requires s != []
    ensures NoDouble([x] + s, c) <==> NoDouble(s, c) && !(x == c && s[0] == c)
  {
    var t := [x] + s;
    assert forall i :: 0 < i < |t| ==> t[i] == s[i - 1];
    if NoDouble(t, c) {
      forall i | 0 < i < |s| ensures !(s[i - 1] == c && s[i] == c) {
        assert !(t[(i + 1) - 1] == c && t[i + 1] == c);
      }
      assert !(t[1 - 1] == c && t[1] == c);
    }
  }

  /** Shaving takes a stretch of the name, and all the edge there is. */
  lemma {:induction false} ShaveLeftIs(s: string)
    ensures exists a: nat :: a <= |s| && ShaveLeft(s) == s[a..]
    ensures ShaveLeft(s) != [] ==> !Edge(ShaveLeft(s)[0])
    ensures s != [] && !Edge(s[0]) ==> ShaveLeft(s) == s
  {
    if s != [] && Edge(s[0]) {
      ShaveLeftIs(s[1..]);
      var a: nat :| a <= |s[1..]| && ShaveLeft(s[1..]) == s[1..][a..];
      assert s[1..][a..] == s[a + 1..];
    } else {
      assert s == s[0..];
    }
  }

  lemma {:induction false} ShaveRightIs(s: string)
    ensures exists b: nat :: b <= |s| && ShaveRight(s) == s[..b]
    ensures ShaveRight(s) != [] ==> !Edge(ShaveRight(s)[|ShaveRight(s)| - 1])
    ensures s != [] && !Edge(s[|s| - 1]) ==> ShaveRight(s) == s
  {
    if s != [] && Edge(s[|s| - 1]) {
      ShaveRightIs(s[..|s| - 1]);
      var b: nat :| b <= |s[..|s| - 1]| && ShaveRight(s[..|s| - 1]) == s[..|s| - 1][..b];
      assert s[..|s| - 1][..b] == s[..b];
    } else {
      assert s == s[..|s|];
    }
  }

  lemma {:induction false} StretchKeeps(s: string, a: nat, b: nat)
    requires a <= b <= |s|
    ensures AllSafe(s) ==> AllSafe(s[a..b])
    ensures NoDouble(s, '.') ==> NoDouble(s[a..b], '.')
    ensures NoDouble(s, '_') ==> NoDouble(s[a..b], '_')
  {
    var t := s[a..b];
    assert forall i :: 0 <= i < |t| ==> t[i] == s[a + i];
    forall c: char | NoDouble(s, c) ensures NoDouble(t, c) {
      forall i | 0 < i < |t| ensures !(t[i - 1] == c && t[i] == c) {
        assert !(s[(a + i) - 1] == c && s[a + i] == c);
      }
    }
  }

  lemma {:induction false} ShaveIs(s: string)
    ensures exists a: nat, b: nat :: a <= b <= |s| && Shave(s) == s[a..b]
    ensures Shave(s) != [] ==> !Edge(Shave(s)[0]) && !Edge(Shave(s)[|Shave(s)| - 1])
    ensures s != [] && !Edge(s[0]) && !Edge(s[|s| - 1]) ==> Shave(s) == s
  {
    var l := ShaveLeft(s);
    ShaveLeftIs(s);
    ShaveRightIs(l);
    var a: nat :| a <= |s| && l == s[a..];
    var b: nat :| b <= |l| && ShaveRight(l) == l[..b];
    assert l[..b] == s[a..a + b];
  }

  /** Cleaned and shaved: everything of a tidy name but the cap. */
  lemma {:induction false} ShaveKeeps(s: string)
    requires AllSafe(s) && NoDouble(s, '.') && NoDouble(s, '_')
    ensures var t := Shave(s); AllSafe(t) && NoDouble(t, '.') && NoDouble(t, '_') && |t| <= |s|
  {
    ShaveIs(s);
    var a: nat, b: nat :| a <= b <= |s| && Shave(s) == s[a..b];
    StretchKeeps(s, a, b);
  }

  lemma {:induction false} TidyIsTidy(stem: string, cap: nat)
    requires cap >= 6
    ensures IsTidy(Tidy(stem, cap), cap)
  {
    var u := Singled(Whitelisted(stem));
    WhitelistedIsSafe(stem);
    SingledIs(Whitelisted(stem));
    ShaveKeeps(u);
    CutIsTidy(Shave(u), cap);
  }

  lemma {:induction false} SingledIs(w: string)
    requires AllSafe(w)
    ensures var u := Singled(w); AllSafe(u) && NoDouble(u, '.') && NoDouble(u, '_')
  {
    var d := Single(w, '.');
    SingleIs(w, '.', '_');
    SingleIs(d, '_', '.');
  }

  lemma {:induction false} CutIsTidy(cleaned: string, cap: nat)
    requires AllSafe(cleaned) && NoDouble(cleaned, '.') && NoDouble(cleaned, '_')
    ensures var t := Shave(Cut(cleaned, cap)); t != [] ==> IsTidy(t, cap)
  {
    var s := Cut(cleaned, cap);
    StretchKeeps(cleaned, 0, |s|);
    assert s == cleaned[0..|s|];
    ShaveKeeps(s);
    ShaveIs(s);
  }

  /** A tidy name is left alone. */
  lemma {:induction false} TidyFixed(s: string, cap: nat)
    requires IsTidy(s, cap)
    ensures Tidy(s, cap) == s
  {
    WhitelistedIsSafe(s);
    SingleIs(s, '.', '_');
    SingleIs(s, '_', '.');
    ShaveIs(s);
  }

  /** For every stem the name is tidy, so never empty and never with two dots
      together; and tidying again changes nothing. */
  lemma {:induction false} TidyIsIdempotent(stem: string, cap: nat)
    requires cap >= 6
    ensures IsTidy(Tidy(stem, cap), cap) && Tidy(Tidy(stem, cap), cap) == Tidy(stem, cap)
  {
    TidyIsTidy(stem, cap);
    TidyFixed(Tidy(stem, cap), cap);
  }

  // ---- whole names ------------------------------------------------------------------

  /** How the letters of other scripts are normalised and folded to ASCII. */
  datatype Folding = Folding(normal: string -> string, ascii: string -> string)

  predicate IsAscii(s: string) { forall i :: 0 <= i < |s| ==> s[i] as int < 128 }

  /** Both leave ASCII text alone. */
  ghost predicate GoodFolding(f: Folding) {
    forall s :: IsAscii(s) ==> f.normal(s) == s && f.ascii(s) == s
  }

  predicate Hidden(c: char) {
    var n := c as int;
    || n < 0x20 || 0x7f <= n <= 0x9f || 0x200b <= n <= 0x200f || 0x2028 <= n <= 0x202e
    || 0x2066 <= n <= 0x2069 || n == 0xfeff
  }

  function Visible(s: string): string {
    if s == [] then [] else (if Hidden(s[0]) then [] else [s[0]]) + Visible(s[1..])
  }

  /** What follows the last separator, of either kind. */
  function Basename(s: string): string {
    if s == [] || s[|s| - 1] == '/' || s[|s| - 1] == '\\' then []
    else Basename(s[..|s| - 1]) + [s[|s| - 1]]
  }

  /** Where the last dot stands, or the length when there is none. */
  function LastDot(s: string): (k: nat)
    ensures k <= |s| && (k < |s| ==> s[k] == '.')
    ensures forall i :: k < i < |s| ==> s[i] != '.'
    ensures k == |s| ==> forall i :: 0 <= i < |s| ==> s[i] != '.'
  {
    if s == [] then 0
    else if s[|s| - 1] == '.' then |s| - 1
    else
      var k := LastDot(s[..|s| - 1]);
      assert forall i :: 0 <= i < |s| - 1 ==> s[..|s| - 1][i] == s[i];
      if k == |s| - 1 then |s| else k
  }

  /** Cut at the last dot; where there is none, or it comes first, there is no stem to
      split from. */
  function SplitAtDot(base: string): (string, string) {
    var k := LastDot(base);
    if k == |base| || k == 0 then (base, "") else (base[..k], Lower(Strip(base[k + 1..])))
  }

  /** The stem and the lower-case extension of a caller's name. */
  function SplitExtension(f: Folding, raw: string): (string, string) {
    SplitAtDot(Strip(Basename(Visible(f.normal(raw)))))
  }

  /** One the table knows: lower-case letters. */
  predicate IsExtension(e: string) { e != [] && forall i :: 0 <= i < |e| ==> IsLower(e[i]) }

  /** What goes in the storage key. */
  function StorageName(f: Folding, raw: string, extension: string): string {
    var tidy := Tidy(f.ascii(SplitExtension(f, raw).0), NAME_CAP);
    if extension == "" then tidy else tidy + "." + extension
  }

  lemma {:induction false} VisibleFixed(s: string)
    requires forall i :: 0 <= i < |s| ==> !Hidden(s[i])
    ensures Visible(s) == s
  {
    if s != [] {
      VisibleFixed(s[1..]);
      assert s == [s[0]] + s[1..];
    }
  }

  lemma {:induction false} BasenameFixed(s: string)
    requires forall i :: 0 <= i < |s| ==> s[i] != '/' && s[i] != '\\'
    ensures Basename(s) == s
  {
    if s != [] {
      BasenameFixed(s[..|s| - 1]);
      assert s == s[..|s| - 1] + [s[|s| - 1]];
    }
  }

  lemma {:induction false} LowerFixed(s: string)
    requires forall i :: 0 <= i < |s| ==> !IsUpper(s[i])
    ensures Lower(s) == s
  {
  }

  lemma {:induction false} SafeIsPlain(s: string)
    requires AllSafe(s)
    ensures IsAscii(s) && Visible(s) == s && Basename(s) == s
  {
    VisibleFixed(s);
    BasenameFixed(s);
  }

  /** Every file name gives a stored name that is tidy but for the cap, which its
      extension may exceed, and which ends in the extension asked for. */
  lemma {:induction false} StorageNameIs(f: Folding, raw: string, extension: string)
    requires extension == "" || IsExtension(extension)
    ensures var n := StorageName(f, raw, extension);
            && n != [] && AllSafe(n) && NoDouble(n, '.') && NoDouble(n, '_') && IsAlnum(n[0]) && IsAlnum(n[|n| - 1])
            && |n| <= 100 + (if extension == "" then 0 else 1 + |extension|)
            && IsTidy(n, if extension == "" then NAME_CAP else NAME_CAP + 1 + |extension|)
            && (extension != "" ==> |extension| < |n| && n[|n| - |extension| - 1..] == "." + extension)
  {
    var tidy := Tidy(f.ascii(SplitExtension(f, raw).0), NAME_CAP);
    TidyIsTidy(f.ascii(SplitExtension(f, raw).0), NAME_CAP);
    if extension != "" {
      ExtendedIsTidy(tidy, extension);
    }
  }

  lemma {:induction false} ExtendedIsTidy(tidy: string, extension: string)
    requires IsTidy(tidy, NAME_CAP) && IsExtension(extension)
    ensures var n := tidy + "." + extension;
            && IsTidy(n, NAME_CAP + 1 + |extension|) && n[|n| - |extension| - 1..] == "." + extension
  {
    WithExtension(tidy, extension);
    var n := tidy + "." + extension;
    assert n[|n| - |extension| - 1..] == "." + extension;
  }

  lemma {:induction false} WithExtension(tidy: string, extension: string)
    requires IsTidy(tidy, NAME_CAP) && IsExtension(extension)
    ensures var n := tidy + "." + extension;
            && AllSafe(n) && NoDouble(n, '.') && NoDouble(n, '_') && n[0] == tidy[0]
            && n[|n| - 1] == extension[|extension| - 1]
            && LastDot(n) == |tidy| && n[..|tidy|] == tidy && n[|tidy| + 1..] == extension
  {
    var n := tidy + "." + extension;
    assert n[|tidy|] == '.';
    assert forall i :: 0 <= i < |n| ==>
             n[i] == if i < |tidy| then tidy[i] else if i == |tidy| then '.' else extension[i - |tidy| - 1];
    forall i | 0 < i < |n| ensures !(n[i - 1] == '.' && n[i] == '.') && !(n[i - 1] == '_' && n[i] == '_') {
      if i < |tidy| {
        assert !(tidy[i - 1] == '.' && tidy[i] == '.') && !(tidy[i - 1] == '_' && tidy[i] == '_');
      }
    }
  }

  lemma {:induction false} SafeIsStripped(s: string)
    requires AllSafe(s)
    ensures Strip(s) == s
  {
    assert forall i :: 0 <= i < |s| ==> Safe(s[i]);
    StripFixed(s);
  }

  lemma {:induction false} SplitsAtExtension(f: Folding, tidy: string, extension: string)
    requires GoodFolding(f) && IsTidy(tidy, NAME_CAP) && IsExtension(extension)
    ensures SplitExtension(f, tidy + "." + extension) == (tidy, extension)
  {
    var n := tidy + "." + extension;
    WithExtension(tidy, extension);
    SafeIsPlain(n);
    SafeIsStripped(n);
    SafeIsStripped(extension);
    LowerFixed(extension);
    assert f.normal(n) == n;
  }

  /** The stored name splits back into what it was made of, so storing a stored
      name again, under the same extension, stores the same name. */
  lemma {:induction false} StoredNameSplitsBack(f: Folding, raw: string, extension: string)
    requires GoodFolding(f) && IsExtension(extension)
    ensures var n := StorageName(f, raw, extension);
            && SplitExtension(f, n) == (Tidy(f.ascii(SplitExtension(f, raw).0), NAME_CAP), extension)
            && StorageName(f, n, extension) == n
  {
    var tidy := Tidy(f.ascii(SplitExtension(f, raw).0), NAME_CAP);
    TidyIsTidy(f.ascii(SplitExtension(f, raw).0), NAME_CAP);
    SplitsAtExtension(f, tidy, extension);
    SafeIsPlain(tidy);
    TidyFixed(tidy, NAME_CAP);
  }

  lemma {:induction false} SplitsPlain(f: Folding, n: string)
    requires GoodFolding(f) && IsTidy(n, NAME_CAP)
    ensures var k := LastDot(n);
            SplitExtension(f, n).0 == (if k == |n| || k == 0 then n else n[..k])
  {
    SafeIsPlain(n);
    SafeIsStripped(n);
  }

  /** A shorter stretch from the front of a tidy name does not tidy into the name. */
  lemma {:induction false} FrontTidiesShorter(n: string, k: nat)
    requires IsTidy(n, NAME_CAP) && 0 < k < |n|
    ensures |Tidy(n[..k], NAME_CAP)| <= k
  {
    var s := n[..k];
    assert s == n[0..k];
    StretchKeeps(n, 0, k);
    WhitelistedIsSafe(s);
    SingleIs(s, '.', '_');
    SingleIs(s, '_', '.');
    ShaveKeeps(s);
    ShaveLeftIs(s);
    ShaveRightIs(s);
    ShaveIsNotEmpty(s);
    var cleaned := Shave(s);
    assert Cut(cleaned, NAME_CAP) == cleaned;
    ShaveIs(cleaned);
    ShaveIs(s);
  }

  lemma {:induction false} ShaveIsNotEmpty(s: string)
    requires s != [] && !Edge(s[0])
    ensures Shave(s) != []
    decreases |s|
  {
    if |s| > 1 && Edge(s[|s| - 1]) {
      var t := s[..|s| - 1];
      ShaveIsNotEmpty(t);
    }
  }

  /** A name stored without an extension stores again as itself exactly when it
      has no dot: what follows its last dot would be taken for an extension. */
  lemma {:induction false} BareNameStoresAgainWhen(f: Folding, raw: string)
    requires GoodFolding(f)
    ensures var n := StorageName(f, raw, ""); StorageName(f, n, "") == n <==> '.' !in n
  {
    var n := StorageName(f, raw, "");
    TidyIsTidy(f.ascii(SplitExtension(f, raw).0), NAME_CAP);
    SplitsPlain(f, n);
    var k := LastDot(n);
    if k == |n| {
      SafeIsPlain(n);
      TidyFixed(n, NAME_CAP);
    } else {
      assert n[k] == '.' && k > 0;
      assert AllSafe(n[..k]);
      SafeIsPlain(n[..k]);
      FrontTidiesShorter(n, k);
    }
  }
}
