/** The JavaScript string operations the extension relies on, over `seq<char>`:
    `trim`, `split`/`join`, `toLowerCase`, `includes`, the level-icon regular
    expression and the CSV quote doubling. */
module Text {
  import opened Wrappers

  // ---------------------------------------------------------------------------
  // Whitespace and `trim`
  // ---------------------------------------------------------------------------

  /** ECMAScript WhiteSpace and LineTerminator code points: what `String.prototype.trim` removes. */
  predicate IsSpace(c: char) {
    c == '\t' || c == '\n' || c == '\U{B}' || c == '\U{C}' || c == '\r' || c == ' '
    || c == '\U{A0}' || c == '\U{1680}' || ('\U{2000}' <= c <= '\U{200A}')
    || c == '\U{2028}' || c == '\U{2029}' || c == '\U{202F}' || c == '\U{205F}'
    || c == '\U{3000}' || c == '\U{FEFF}'
  }

  predicate AllSpace(s: string) {
    forall i :: 0 <= i < |s| ==> IsSpace(s[i])
  }

  /** `s.trimStart()`: the suffix left after dropping the leading whitespace. */
  function TrimStart(s: string): (r: string)
    ensures |r| <= |s| && r == s[|s| - |r|..]
    ensures r == [] || !IsSpace(r[0])
  {
    if s != [] && IsSpace(s[0]) then TrimStart(s[1..]) else s
  }

  /** `s.trimEnd()`: the prefix left after dropping the trailing whitespace. */
  function TrimEnd(s: string): (r: string)
    ensures |r| <= |s| && r == s[..|r|]
    ensures r == [] || !IsSpace(r[|r| - 1])
  {
    if s != [] && IsSpace(s[|s| - 1]) then TrimEnd(s[..|s| - 1]) else s
  }

  /** What `trimStart` drops is whitespace. */
  lemma {:induction false} TrimStartDrops(s: string)
    ensures forall i :: 0 <= i < |s| - |TrimStart(s)| ==> IsSpace(s[i])
  {
    if s != [] && IsSpace(s[0]) {
      var rest := s[1..];
      TrimStartDrops(rest);
      forall i | 0 <= i < |s| - |TrimStart(s)| ensures IsSpace(s[i]) {
        if i > 0 {
          assert s[i] == rest[i - 1];
        }
      }
    }
  }

  /** What `trimEnd` drops is whitespace. */
  lemma {:induction false} TrimEndDrops(s: string)
    ensures forall i :: |TrimEnd(s)| <= i < |s| ==> IsSpace(s[i])
  {
    if s != [] && IsSpace(s[|s| - 1]) {
      var init := s[..|s| - 1];
      TrimEndDrops(init);
      forall i | |TrimEnd(s)| <= i < |s| ensures IsSpace(s[i]) {
        if i < |s| - 1 {
          assert s[i] == init[i];
        }
      }
    }
  }

  /** `s.trim()`: the infix of `s` between its leading and its trailing whitespace. */
  function Trim(s: string): (r: string)
    ensures |r| <= |s|
    ensures r == [] || (!IsSpace(r[0]) && !IsSpace(r[|r| - 1]))
  {
    TrimEnd(TrimStart(s))
  }

  /** Trim removes whitespace only: what it returns sits in `s` between two runs of whitespace. */
  lemma TrimInfix(s: string)
    ensures var r, k := Trim(s), |s| - |TrimStart(s)|;
            k + |r| <= |s| && r == s[k..k + |r|]
            && (forall i :: 0 <= i < k ==> IsSpace(s[i]))
            && (forall i :: k + |r| <= i < |s| ==> IsSpace(s[i]))
  {
    var t := TrimStart(s);
    TrimStartDrops(s);
    var r := TrimEnd(t);
    TrimEndDrops(t);
    InfixBetweenSpaces(s, t, r);
  }

  /** What `Trim` promises about its ends, for a named result `r`: no whitespace at
      either end, and empty exactly for an all-whitespace `s`. */
  lemma TrimmedEnds(s: string, r: string)
    requires r == Trim(s)
    ensures r == [] || (!IsSpace(r[0]) && !IsSpace(r[|r| - 1]))
    ensures r == [] <==> AllSpace(s)
  {
    TrimEmptyIffAllSpace(s);
  }

  /** `TrimInfix` for a named result `r`. */
  lemma TrimmedAt(s: string, r: string)
    requires r == Trim(s)
    ensures var k := |s| - |TrimStart(s)|;
            k + |r| <= |s| && r == s[k..k + |r|]
            && (forall i :: 0 <= i < k ==> IsSpace(s[i]))
            && (forall i :: k + |r| <= i < |s| ==> IsSpace(s[i]))
  {
    TrimInfix(s);
  }

  /** A prefix `r` of a suffix `t` of `s`, where both dropped parts are whitespace. */
  lemma InfixBetweenSpaces(s: string, t: string, r: string)
    requires |t| <= |s| && t == s[|s| - |t|..]
    requires |r| <= |t| && r == t[..|r|] && forall i :: |r| <= i < |t| ==> IsSpace(t[i])
    ensures var k := |s| - |t|;
            k + |r| <= |s| && r == s[k..k + |r|] && forall i :: k + |r| <= i < |s| ==> IsSpace(s[i])
  {
    var k := |s| - |t|;
    SliceOfSuffix(s, k, |r|);
    forall i | k + |r| <= i < |s| ensures IsSpace(s[i]) {
      assert s[i] == t[i - k];
    }
  }

  lemma SliceOfSuffix(s: string, k: nat, n: nat)
    requires k + n <= |s|
    ensures s[k..][..n] == s[k..k + n]
  {
  }

  /** `!s.trim()` holds exactly for the strings made of whitespace only. */
  lemma TrimEmptyIffAllSpace(s: string)
    ensures Trim(s) == [] <==> AllSpace(s)
  {
    var t := TrimStart(s);
    if Trim(s) == [] {
      TrimEndDrops(t);
      assert t == [];
      TrimStartDrops(s);
    }
  }

  /** A string without whitespace at either end is its own trim. */
  lemma TrimOfTrimmed(s: string)
    requires s == [] || (!IsSpace(s[0]) && !IsSpace(s[|s| - 1]))
    ensures Trim(s) == s
  {
  }

  /** Trimming twice is trimming once. */
  lemma TrimIdempotent(s: string)
    ensures Trim(Trim(s)) == Trim(s)
  {
    TrimOfTrimmed(Trim(s));
  }

  // ---------------------------------------------------------------------------
  // `split`, `join`, concatenation
  // ---------------------------------------------------------------------------

  /** The two colons the extension splits on: half-width `:` and full-width `：`. */
  const Colons: set<char> := {':', '：'}

  predicate NoneIn(s: string, seps: set<char>) {
    forall i :: 0 <= i < |s| ==> s[i] !in seps
  }

  /** `s` with every separator character removed. */
  function Without(s: string, seps: set<char>): (r: string)
    ensures NoneIn(r, seps)
  {
    if s == [] then []
    else if s[0] in seps then Without(s[1..], seps)
    else [s[0]] + Without(s[1..], seps)
  }

  /** `s.split(re)` for a regular expression that matches any single character of `seps`:
      the pieces between consecutive separators, empty pieces included. */
  function Split(s: string, seps: set<char>): (r: seq<string>)
    ensures |r| >= 1
    ensures forall k :: 0 <= k < |r| ==> NoneIn(r[k], seps)
  {
    if s == [] then [[]]
    else
      var rest := Split(s[1..], seps);
      if s[0] in seps then [[]] + rest
      else [[s[0]] + rest[0]] + rest[1..]
  }

  /** `ss.join("")`. */
  function Concat(ss: seq<string>): string {
    if ss == [] then [] else ss[0] + Concat(ss[1..])
  }

  /** `ss.join(sep)`. */
  function Join(ss: seq<string>, sep: string): string {
    if |ss| == 0 then []
    else if |ss| == 1 then ss[0]
    else ss[0] + sep + Join(ss[1..], sep)
  }

  /** Gluing the pieces back without separators gives `s` minus its separators. */
  lemma {:induction false} SplitConcat(s: string, seps: set<char>)
    ensures Concat(Split(s, seps)) == Without(s, seps)
  {
    if s != [] {
      var rest := Split(s[1..], seps);
      SplitConcat(s[1..], seps);
      if s[0] in seps {
        assert ([[]] + rest)[1..] == rest;
      } else {
        var r := [[s[0]] + rest[0]] + rest[1..];
        assert r[1..] == rest[1..];
        assert Concat(rest) == rest[0] + Concat(rest[1..]);
      }
    }
  }

  /** Splitting on one character and joining with it is the identity. */
  lemma {:induction false} SplitJoin(s: string, c: char)
    ensures Join(Split(s, {c}), [c]) == s
  {
    if s != [] {
      var rest := Split(s[1..], {c});
      SplitJoin(s[1..], c);
      if s[0] == c {
        assert ([[]] + rest)[1..] == rest;
      } else {
        var r := [[s[0]] + rest[0]] + rest[1..];
        assert r[1..] == rest[1..];
      }
    }
  }

  /** A separator-free prefix extends the first piece of what follows it. */
  lemma {:induction false} SplitFree(a: string, t: string, seps: set<char>)
    requires NoneIn(a, seps)
    ensures Split(a + t, seps) == [a + Split(t, seps)[0]] + Split(t, seps)[1..]
  {
    if a == [] {
      var st := Split(t, seps);
      assert a + t == t && a + st[0] == st[0];
      assert [st[0]] + st[1..] == st;
    } else {
      var tail := a[1..];
      forall i | 0 <= i < |tail| ensures tail[i] !in seps {
        assert tail[i] == a[i + 1];
      }
      SplitFree(tail, t, seps);
      var st := Split(t, seps);
      var rest := Split(tail + t, seps);
      assert (a + t)[1..] == tail + t;
      assert (a + t)[0] == a[0] && a[0] !in seps;
      assert rest[0] == tail + st[0] && rest[1..] == st[1..];
      assert Split(a + t, seps) == [[a[0]] + rest[0]] + rest[1..];
      assert [a[0]] + (tail + st[0]) == a + st[0];
    }
  }

  /** Joining separator-free pieces with one character and splitting on it gives the
      pieces back: `split` inverts `join`. */
  lemma {:induction false} JoinSplit(ss: seq<string>, c: char)
    requires |ss| >= 1 && forall k :: 0 <= k < |ss| ==> NoneIn(ss[k], {c})
    ensures Split(Join(ss, [c]), {c}) == ss
  {
    if |ss| == 1 {
      SplitFree(ss[0], [], {c});
      assert ss[0] + [] == ss[0];
    } else {
      var more := ss[1..];
      forall k | 0 <= k < |more| ensures NoneIn(more[k], {c}) {
        assert more[k] == ss[k + 1];
      }
      JoinSplit(more, c);
      var rest := Join(more, [c]);
      assert Join(ss, [c]) == ss[0] + ([c] + rest);
      SplitFree(ss[0], [c] + rest, {c});
      assert ([c] + rest)[1..] == rest && ([c] + rest)[0] == c;
      var pieces: seq<string> := [[]] + more;
      assert Split([c] + rest, {c}) == pieces;
      assert pieces[0] == [] && pieces[1..] == more;
      assert ss[0] + [] == ss[0] && [ss[0]] + more == ss;
    }
  }

  /** Without a separator there is one piece: the whole string. */
  lemma {:induction false} SplitNoSeparator(s: string, seps: set<char>)
    requires NoneIn(s, seps)
    ensures Split(s, seps) == [s]
  {
    if s != [] {
      assert NoneIn(s[1..], seps) by {
        forall i | 0 <= i < |s| - 1 ensures s[1..][i] !in seps {
          assert s[1..][i] == s[i + 1];
        }
      }
      SplitNoSeparator(s[1..], seps);
      assert [s[0]] + s[1..] == s;
    }
  }

  /** With a first separator at `k`, the first piece is `s[..k]` and the other pieces
      glued together are the rest of `s` after `k` with its separators removed. */
  lemma {:induction false} SplitAtFirst(s: string, seps: set<char>, k: nat)
    requires k < |s| && s[k] in seps && NoneIn(s[..k], seps)
    ensures |Split(s, seps)| >= 2
    ensures Split(s, seps)[0] == s[..k]
    ensures Concat(Split(s, seps)[1..]) == Without(s[k + 1..], seps)
  {
    var rest := Split(s[1..], seps);
    if k == 0 {
      assert ([[]] + rest)[1..] == rest;
      SplitConcat(s[1..], seps);
    } else {
      assert s[0] == s[..k][0];
      assert s[1..][..k - 1] == s[..k][1..];
      SplitAtFirst(s[1..], seps, k - 1);
      assert s[1..][k - 1 + 1..] == s[k + 1..];
      var r := [[s[0]] + rest[0]] + rest[1..];
      assert r[1..] == rest[1..];
      assert r[0] == [s[0]] + s[1..][..k - 1] == s[..k];
    }
  }

  /** `s.split(re).length >= 2` exactly when `s` holds a separator. */
  lemma SplitCount(s: string, seps: set<char>)
    ensures |Split(s, seps)| >= 2 <==> !NoneIn(s, seps)
  {
    if NoneIn(s, seps) {
      SplitNoSeparator(s, seps);
    } else {
      var k := FirstIn(s, seps);
      SplitAtFirst(s, seps, k);
    }
  }

  /** A slice of a separator-free string is separator-free. */
  lemma NoneInSlice(s: string, seps: set<char>, a: nat, b: nat)
    requires a <= b <= |s| && NoneIn(s, seps)
    ensures NoneIn(s[a..b], seps)
  {
    forall i | 0 <= i < b - a ensures s[a..b][i] !in seps {
      assert s[a..b][i] == s[a + i];
    }
  }

  /** Trimming a separator-free string leaves it separator-free. */
  lemma TrimNoneIn(s: string, seps: set<char>)
    requires NoneIn(s, seps)
    ensures NoneIn(Trim(s), seps)
  {
    var t := TrimStart(s);
    NoneInSlice(s, seps, |s| - |t|, |s|);
    NoneInSlice(t, seps, 0, |TrimEnd(t)|);
  }

  /** Index of the first separator of `s`. */
  function FirstIn(s: string, seps: set<char>): (k: nat)
    requires !NoneIn(s, seps)
    ensures k < |s| && s[k] in seps && NoneIn(s[..k], seps)
  {
    if s[0] in seps then 0
    else
      assert !NoneIn(s[1..], seps) by {
        var i :| 0 <= i < |s| && s[i] in seps;
        assert s[1..][i - 1] == s[i];
      }
      var k := FirstIn(s[1..], seps);
      assert s[..k + 1] == [s[0]] + s[1..][..k];
      k + 1
  }

  // ---------------------------------------------------------------------------
  // `toLowerCase` and `includes`
  // ---------------------------------------------------------------------------

  /** Lower-case mapping of one character: ASCII `A`-`Z` and the Latin-1 capitals. */
  function LowerChar(c: char): char {
    if 'A' <= c <= 'Z' || ('\U{C0}' <= c <= '\U{DE}' && c != '\U{D7}') then (c as int + 32) as char else c
  }

  /** `s.toLowerCase()`, character by character. */
  function Lower(s: string): string {
    seq(|s|, i requires 0 <= i < |s| => LowerChar(s[i]))
  }

  /** Lower-casing twice is lower-casing once. */
  lemma LowerIdempotent(s: string)
    ensures Lower(Lower(s)) == Lower(s)
  {
  }

  /** Lower-casing neither creates nor removes whitespace. */
  lemma LowerCharSpace(c: char)
    ensures IsSpace(LowerChar(c)) == IsSpace(c)
  {
  }

  lemma {:induction false} LowerTrimStart(s: string)
    ensures Lower(TrimStart(s)) == TrimStart(Lower(s))
  {
    if s != [] {
      var l := Lower(s);
      assert l[0] == LowerChar(s[0]);
      LowerCharSpace(s[0]);
      if IsSpace(s[0]) {
        assert l[1..] == Lower(s[1..]);
        LowerTrimStart(s[1..]);
      }
    }
  }

  lemma {:induction false} LowerTrimEnd(s: string)
    ensures Lower(TrimEnd(s)) == TrimEnd(Lower(s))
  {
    if s != [] {
      var l := Lower(s);
      assert l[|s| - 1] == LowerChar(s[|s| - 1]);
      LowerCharSpace(s[|s| - 1]);
      if IsSpace(s[|s| - 1]) {
        assert l[..|s| - 1] == Lower(s[..|s| - 1]);
        LowerTrimEnd(s[..|s| - 1]);
      }
    }
  }

  /** `s.trim().toLowerCase() == s.toLowerCase().trim()`. */
  lemma LowerTrim(s: string)
    ensures Lower(Trim(s)) == Trim(Lower(s))
  {
    LowerTrimStart(s);
    LowerTrimEnd(TrimStart(s));
  }

  predicate OccursAt(s: string, sub: string, i: int) {
    0 <= i <= |s| && sub <= s[i..]
  }

  /** `s.includes(sub)`. */
  function Contains(s: string, sub: string): bool
    decreases |s|
  {
    sub <= s || (s != [] && Contains(s[1..], sub))
  }

  /** `includes` holds exactly when `sub` occurs at some position of `s`. */
  lemma {:induction false} ContainsIffOccurs(s: string, sub: string)
    ensures Contains(s, sub) <==> exists i :: OccursAt(s, sub, i)
  {
    if sub <= s {
      assert s[0..] == s;
      assert OccursAt(s, sub, 0);
    }
    if s != [] {
      ContainsIffOccurs(s[1..], sub);
      if Contains(s[1..], sub) {
        var i :| OccursAt(s[1..], sub, i);
        assert s[i + 1..] == s[1..][i..];
        assert OccursAt(s, sub, i + 1);
      }
      if i :| OccursAt(s, sub, i) {
        if i > 0 {
          assert s[i..] == s[1..][i - 1..];
          assert OccursAt(s[1..], sub, i - 1);
        }
      }
    } else {
      if i :| OccursAt(s, sub, i) {
        assert i == 0;
      }
    }
  }

  // ---------------------------------------------------------------------------
  // The level-icon pattern `level_(v\d+_\d+)\.png`
  // ---------------------------------------------------------------------------

  predicate IsDigit(c: char) {
    '0' <= c <= '9'
  }

  predicate AllDigits(s: string) {
    forall i :: 0 <= i < |s| ==> IsDigit(s[i])
  }

  /** Length of the longest run of digits at the start of `s` (what a greedy `\d+` takes). */
  function DigitRun(s: string): (n: nat)
    ensures n <= |s| && AllDigits(s[..n]) && (n == |s| || !IsDigit(s[n]))
  {
    if s != [] && IsDigit(s[0]) then 1 + DigitRun(s[1..]) else 0
  }

  /** The capture group of a match of `level_(v\d+_\d+)\.png` that starts at `s[0]`.
      The `_` and `.` after the digit runs are not digits, so each greedy `\d+` takes
      its whole run and no backtracking can produce another match. */
  function LevelAt(s: string): Option<string> {
    if "level_v" <= s then
      var a := DigitRun(s[7..]);
      if a > 0 && 7 + a < |s| && s[7 + a] == '_' then
        var b := DigitRun(s[8 + a..]);
        if b > 0 && ".png" <= s[8 + a + b..] then Some(s[6..8 + a + b]) else None
      else None
    else None
  }

  /** `(s.match(/level_(v\d+_\d+)\.png/) || [])[1]`: the capture of the leftmost match. */
  function LevelToken(s: string): Option<string>
    decreases |s|
  {
    if s == [] then None
    else if LevelAt(s).Some? then LevelAt(s)
    else LevelToken(s[1..])
  }

  /** `t` is `v`, digits, `_`, digits, split at the underscore `k`. */
  predicate LevelShapedAt(t: string, k: int) {
    2 <= k < |t| - 1 && t[0] == 'v' && t[k] == '_' && AllDigits(t[1..k]) && AllDigits(t[k + 1..])
  }

  /** `t` is a level token: `v<digits>_<digits>`. */
  predicate LevelShaped(t: string) {
    exists k :: 0 <= k < |t| && LevelShapedAt(t, k)
  }

  /** The text `level_` + `t` + `.png` starts at position `i` of `s`, with `t` a level token. */
  predicate MatchesAt(s: string, i: int, t: string) {
    0 <= i <= |s| && "level_" + t + ".png" <= s[i..] && LevelShaped(t)
  }

  lemma {:induction false} DigitRunExact(d: string, rest: string)
    requires AllDigits(d) && (rest == [] || !IsDigit(rest[0]))
    ensures DigitRun(d + rest) == |d|
  {
    if d != [] {
      assert (d + rest)[1..] == d[1..] + rest;
      DigitRunExact(d[1..], rest);
    } else {
      assert d + rest == rest;
    }
  }

  /** What the anchored match captures is a level token, framed by `level_` and `.png`. */
  lemma LevelAtSound(s: string, t: string)
    requires LevelAt(s) == Some(t)
    ensures "level_" + t + ".png" <= s && LevelShaped(t)
  {
    var a := DigitRun(s[7..]);
    var b := DigitRun(s[8 + a..]);
    assert t == s[6..8 + a + b];
    DigitsAt(s, 7, a);
    DigitsAt(s, 8 + a, b);
    ShapeByIndex(t, a + 1);
    assert s[8 + a + b..][..4] == ".png";
    FrameByIndex(s, t);
  }

  /** The digits of a run found in a suffix, as positions of `s`. */
  lemma DigitsAt(s: string, from: nat, n: nat)
    requires from + n <= |s| && AllDigits(s[from..][..n])
    ensures forall j :: from <= j < from + n ==> IsDigit(s[j])
  {
    forall j | from <= j < from + n ensures IsDigit(s[j]) {
      assert s[from..][..n][j - from] == s[j];
    }
  }

  lemma ShapeByIndex(t: string, k: int)
    requires 2 <= k < |t| - 1 && t[0] == 'v' && t[k] == '_'
    requires forall j :: 1 <= j < k ==> IsDigit(t[j])
    requires forall j :: k < j < |t| ==> IsDigit(t[j])
    ensures LevelShapedAt(t, k) && LevelShaped(t)
  {
    var major, minor := t[1..k], t[k + 1..];
    forall i | 0 <= i < |major| ensures IsDigit(major[i]) {
      assert major[i] == t[i + 1];
    }
    forall i | 0 <= i < |minor| ensures IsDigit(minor[i]) {
      assert minor[i] == t[i + k + 1];
    }
  }

  /** `s` starts with `level_` + `t` + `.png` when it does so position by position. */
  lemma FrameByIndex(s: string, t: string)
    requires "level_" <= s && 10 + |t| <= |s| && s[6..6 + |t|] == t && s[6 + |t|..][..4] == ".png"
    ensures "level_" + t + ".png" <= s
  {
    var p := "level_" + t + ".png";
    forall j | 0 <= j < |p| ensures p[j] == s[j] {
      if j < 6 {
        assert p[j] == "level_"[j] == s[j];
      } else if j < 6 + |t| {
        assert p[j] == t[j - 6] == s[6..6 + |t|][j - 6];
      } else {
        assert p[j] == ".png"[j - 6 - |t|] == s[6 + |t|..][..4][j - 6 - |t|];
      }
    }
    assert s[..|p|] == p;
  }

  /** The first digit run of a framed token ends at its underscore. */
  lemma FramedMajor(s: string, t: string, k: int)
    requires "level_" + t + ".png" <= s && LevelShapedAt(t, k)
    ensures "level_v" <= s && DigitRun(s[7..]) == k - 1 && s[6 + k] == '_'
  {
    var p := "level_" + t + ".png";
    assert s[..|p|] == p;
    assert s[..7] == p[..7];
    assert s[7..6 + k] == p[7..6 + k] == t[1..k];
    assert s[7..] == t[1..k] + s[6 + k..];
    assert s[6 + k] == p[6 + k] == t[k];
    DigitRunExact(t[1..k], s[6 + k..]);
  }

  /** The second digit run of a framed token ends at the `.` of `.png`. */
  lemma FramedMinor(s: string, t: string, k: int)
    requires "level_" + t + ".png" <= s && LevelShapedAt(t, k)
    ensures DigitRun(s[7 + k..]) == |t| - k - 1 && ".png" <= s[6 + |t|..]
  {
    var p := "level_" + t + ".png";
    assert s[..|p|] == p;
    assert s[7 + k..6 + |t|] == p[7 + k..6 + |t|] == t[k + 1..];
    assert s[7 + k..] == t[k + 1..] + s[6 + |t|..];
    assert s[6 + |t|..][..4] == p[6 + |t|..];
    assert s[6 + |t|] == '.';
    DigitRunExact(t[k + 1..], s[6 + |t|..]);
  }

  /** A string that starts with `level_` + a level token + `.png` matches, capturing the token. */
  lemma LevelAtComplete(s: string, t: string)
    requires "level_" + t + ".png" <= s && LevelShaped(t)
    ensures LevelAt(s) == Some(t)
  {
    var k :| 0 <= k < |t| && LevelShapedAt(t, k);
    FramedMajor(s, t, k);
    FramedMinor(s, t, k);
    FramedToken(s, t);
    LevelAtBy(s, k - 1, |t| - k - 1);
  }

  /** The anchored match, given its two digit runs. */
  lemma LevelAtBy(s: string, a: nat, b: nat)
    requires "level_v" <= s && DigitRun(s[7..]) == a && a > 0 && 7 + a < |s| && s[7 + a] == '_'
    requires DigitRun(s[8 + a..]) == b && b > 0 && ".png" <= s[8 + a + b..]
    ensures LevelAt(s) == Some(s[6..8 + a + b])
  {
  }

  /** The token of a framed match sits right after `level_`. */
  lemma FramedToken(s: string, t: string)
    requires "level_" + t + ".png" <= s
    ensures 6 + |t| <= |s| && s[6..6 + |t|] == t
  {
    var p := "level_" + t + ".png";
    assert s[..|p|] == p;
    forall j | 0 <= j < |t| ensures s[6..6 + |t|][j] == t[j] {
      assert s[6 + j] == p[6 + j] == t[j];
    }
  }

  /** The anchored match succeeds with capture `t` exactly when `s` starts with
      `level_` + `t` + `.png` and `t` has the token shape. */
  lemma LevelAtSpec(s: string, t: string)
    ensures LevelAt(s) == Some(t) <==> ("level_" + t + ".png" <= s && LevelShaped(t))
  {
    if LevelAt(s) == Some(t) {
      LevelAtSound(s, t);
    }
    if "level_" + t + ".png" <= s && LevelShaped(t) {
      LevelAtComplete(s, t);
    }
  }

  /** Whatever `LevelToken` returns is a level token matched in `s`. */
  lemma {:induction false} LevelTokenSound(s: string)
    ensures LevelToken(s).Some? ==> exists i :: MatchesAt(s, i, LevelToken(s).value)
    decreases |s|
  {
    if s != [] {
      if LevelAt(s).Some? {
        LevelAtSpec(s, LevelAt(s).value);
        assert MatchesAt(s, 0, LevelAt(s).value);
      } else {
        LevelTokenSound(s[1..]);
        if LevelToken(s[1..]).Some? {
          var t := LevelToken(s[1..]).value;
          var i :| MatchesAt(s[1..], i, t);
          assert s[1..][i..] == s[i + 1..];
          assert MatchesAt(s, i + 1, t);
        }
      }
    }
  }

  /** A match at `i` with none further left is the one `LevelToken` returns. */
  lemma {:induction false} LevelTokenLeftmost(s: string, i: nat, t: string)
    requires MatchesAt(s, i, t)
    requires forall j, u :: 0 <= j < i ==> !MatchesAt(s, j, u)
    ensures LevelToken(s) == Some(t)
    decreases i
  {
    if i == 0 {
      assert s[0..] == s;
      LevelAtSpec(s, t);
    } else {
      assert s != [];
      if LevelAt(s).Some? {
        LevelAtSpec(s, LevelAt(s).value);
        assert s[0..] == s;
        assert MatchesAt(s, 0, LevelAt(s).value);
        assert false;
      }
      assert s[1..][i - 1..] == s[i..];
      forall j, u | 0 <= j < i - 1 ensures !MatchesAt(s[1..], j, u) {
        assert s[1..][j..] == s[j + 1..];
        assert !MatchesAt(s, j + 1, u);
      }
      LevelTokenLeftmost(s[1..], i - 1, t);
    }
  }

  /** When nothing matches, there is no level. */
  lemma {:induction false} LevelTokenNone(s: string)
    requires forall i, u :: !MatchesAt(s, i, u)
    ensures LevelToken(s) == None
    decreases |s|
  {
    if s != [] {
      if LevelAt(s).Some? {
        LevelAtSpec(s, LevelAt(s).value);
        assert s[0..] == s;
        assert MatchesAt(s, 0, LevelAt(s).value);
        assert false;
      }
      forall i, u ensures !MatchesAt(s[1..], i, u) {
        if 0 <= i <= |s[1..]| {
          assert s[1..][i..] == s[i + 1..];
          assert !MatchesAt(s, i + 1, u);
        }
      }
      LevelTokenNone(s[1..]);
    }
  }

  // ---------------------------------------------------------------------------
  // CSV quoting
  // ---------------------------------------------------------------------------

  /** `s.replace(/"/g, '""')`: every double quote doubled. */
  function EscapeQuotes(s: string): string {
    if s == [] then []
    else (if s[0] == '"' then "\"\"" else [s[0]]) + EscapeQuotes(s[1..])
  }

  /** `"${s.replace(/"/g, '""')}"`: a quoted CSV field. */
  function Quote(s: string): string {
    "\"" + EscapeQuotes(s) + "\""
  }

  /** Reads the body of a quoted CSV field (the text after its opening quote) up to the
      closing quote, turning each `""` back into `"`: the field's value and what follows. */
  function ReadQuoted(s: string): Option<(string, string)>
    decreases |s|
  {
    if s == [] then None
    else if s[0] == '"' then
      if |s| >= 2 && s[1] == '"' then
        match ReadQuoted(s[2..])
        case Some(p) => Some(("\"" + p.0, p.1))
        case None => None
      else Some(([], s[1..]))
    else
      match ReadQuoted(s[1..])
      case Some(p) => Some(([s[0]] + p.0, p.1))
      case None => None
  }

  /** Reading a quoted field back gives the original value, whatever it holds, provided the
      next character is not a quote (in a CSV row it is a comma or a newline). */
  lemma {:induction false} ReadQuotedEscape(x: string, rest: string)
    requires rest == [] || rest[0] != '"'
    ensures ReadQuoted(EscapeQuotes(x) + "\"" + rest) == Some((x, rest))
  {
    if x == [] {
      assert EscapeQuotes(x) + "\"" + rest == "\"" + rest;
    } else {
      ReadQuotedEscape(x[1..], rest);
      var tail := EscapeQuotes(x[1..]) + "\"" + rest;
      EscapeCons(x, rest);
      if x[0] == '"' {
        ReadQuotedPair(tail);
        assert "\"" + x[1..] == x;
      } else {
        ReadQuotedPlain(x[0], tail);
        assert [x[0]] + x[1..] == x;
      }
    }
  }

  lemma EscapeCons(x: string, rest: string)
    requires x != []
    ensures EscapeQuotes(x) + "\"" + rest
            == (if x[0] == '"' then "\"\"" else [x[0]]) + (EscapeQuotes(x[1..]) + "\"" + rest)
  {
  }

  /** A doubled quote reads as one quote of the value. */
  lemma ReadQuotedPair(tail: string)
    ensures ReadQuoted("\"\"" + tail) ==
              match ReadQuoted(tail)
              case Some(p) => Some(("\"" + p.0, p.1))
              case None => None
  {
    assert ("\"\"" + tail)[2..] == tail;
  }

  /** Any other character is a character of the value. */
  lemma ReadQuotedPlain(c: char, tail: string)
    requires c != '"'
    ensures ReadQuoted([c] + tail) ==
              match ReadQuoted(tail)
              case Some(p) => Some(([c] + p.0, p.1))
              case None => None
  {
    assert ([c] + tail)[1..] == tail;
  }
}
