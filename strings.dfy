/**
  The character-level operations the report pipeline applies to header names
  and to the free-text teacher field: Python's `str.strip`, ASCII `lower` and
  `title`, single-character `replace`, and the two fixed regular expressions
  `\((.*?)\)` (search, first group) and `\s*\(.*?\)` (substitution by "").
  In both patterns `.` matches any character except a newline.
 */
module Strings {
  import opened Wrappers

  /** Python's whitespace (`str.isspace`, and `\s` in a `str` pattern). */
  predicate IsSpace(c: char) {
    || c == ' '
    || ('\t' <= c <= '\r')
    || ('\U{1C}' <= c <= '\U{1F}')
    || c == '\U{85}' || c == '\U{A0}' || c == '\U{1680}'
    || ('\U{2000}' <= c <= '\U{200A}')
    || c == '\U{2028}' || c == '\U{2029}' || c == '\U{202F}'
    || c == '\U{205F}' || c == '\U{3000}'
  }

  predicate IsUpper(c: char) { 'A' <= c <= 'Z' }
  predicate IsLower(c: char) { 'a' <= c <= 'z' }
  predicate IsLetter(c: char) { IsUpper(c) || IsLower(c) }

  function ToLower(c: char): (r: char)
    ensures IsLetter(r) == IsLetter(c) && !IsUpper(r)
    ensures !IsUpper(c) ==> r == c
  {
    if IsUpper(c) then (c as int + 32) as char else c
  }

  function ToUpper(c: char): (r: char)
    ensures IsLetter(r) == IsLetter(c) && !IsLower(r)
    ensures !IsLower(c) ==> r == c
  {
    if IsLower(c) then (c as int - 32) as char else c
  }

  /** `str.lower()` over ASCII letters. */
  function Lower(s: string): (r: string)
    ensures |r| == |s|
    ensures forall i :: 0 <= i < |s| ==> !IsUpper(r[i]) && IsSpace(r[i]) == IsSpace(s[i])
    ensures forall i :: 0 <= i < |s| && !IsUpper(s[i]) ==> r[i] == s[i]
    ensures forall i :: 0 <= i < |s| ==> IsLetter(r[i]) == IsLetter(s[i]) && ToUpper(r[i]) == ToUpper(s[i])
  {
    seq(|s|, i requires 0 <= i < |s| => ToLower(s[i]))
  }

  /** True when position `i` of `s` begins a word: the character before it is not a letter. */
  predicate StartsWord(s: string, i: nat)
    requires i < |s|
  {
    i == 0 || !IsLetter(s[i - 1])
  }

  /** `str.title()` over ASCII: a letter is upper-cased when it starts a word, lower-cased otherwise. */
  function Title(s: string): (r: string)
    ensures |r| == |s|
    ensures forall i :: 0 <= i < |s| ==> IsLetter(r[i]) == IsLetter(s[i])
    ensures forall i :: 0 <= i < |s| && !IsLetter(s[i]) ==> r[i] == s[i]
    ensures forall i :: 0 <= i < |s| && IsLetter(s[i]) ==> (IsUpper(r[i]) <==> StartsWord(s, i))
    ensures forall i :: 0 <= i < |s| ==> ToLower(r[i]) == ToLower(s[i])
  {
    seq(|s|, i requires 0 <= i < |s| =>
      if !IsLetter(s[i]) then s[i]
      else if StartsWord(s, i) then ToUpper(s[i])
      else ToLower(s[i]))
  }

  /** Every occurrence of `a` replaced by `b`. */
  function Replace(s: string, a: char, b: char): (r: string)
    ensures |r| == |s|
    ensures a != b ==> a !in r
    ensures forall i :: 0 <= i < |s| ==> r[i] == (if s[i] == a then b else s[i])
  {
    seq(|s|, i requires 0 <= i < |s| => if s[i] == a then b else s[i])
  }

  /** `s` with its leading whitespace removed. */
  function TrimStart(s: string): (r: string)
    ensures |r| <= |s| && r == s[|s| - |r|..]
    ensures forall i :: 0 <= i < |s| - |r| ==> IsSpace(s[i])
    ensures r != [] ==> !IsSpace(r[0])
  {
    if s != [] && IsSpace(s[0]) then
      var r := TrimStart(s[1..]);
      DropOneMore(s, r);
      r
    else s
  }

  /** A suffix of `s[1..]` is a suffix of `s`, and the part before it moves by one. */
  lemma DropOneMore(s: string, r: string)
    requires s != [] && |r| <= |s| - 1 && r == s[1..][|s| - 1 - |r|..]
    ensures r == s[|s| - |r|..]
    ensures forall i :: 1 <= i < |s| - |r| ==> s[i] == s[1..][i - 1]
  {
  }

  /** `s` with its trailing whitespace removed. */
  function TrimEnd(s: string): (r: string)
    ensures |r| <= |s| && r == s[..|r|]
    ensures forall i :: |r| <= i < |s| ==> IsSpace(s[i])
    ensures r != [] ==> !IsSpace(r[|r| - 1])
  {
    if s != [] && IsSpace(s[|s| - 1]) then TrimEnd(s[..|s| - 1]) else s
  }

  /** `r` is the slice of `s` that starts at position `a`, and only whitespace lies outside it. */
  predicate Surrounds(s: string, a: nat, r: string) {
    a + |r| <= |s| && r == s[a..a + |r|] &&
    (forall i :: 0 <= i < a ==> IsSpace(s[i])) && (forall i :: a + |r| <= i < |s| ==> IsSpace(s[i]))
  }

  /** `str.strip()`: whitespace removed at both ends. */
  function Strip(s: string): (r: string)
    ensures |r| <= |s|
    ensures exists a: nat :: Surrounds(s, a, r)
    ensures r != [] ==> !IsSpace(r[0]) && !IsSpace(r[|r| - 1])
    ensures (forall i :: 0 <= i < |s| ==> !IsSpace(s[i])) ==> r == s
  {
    var t := TrimStart(s);
    var r := TrimEnd(t);
    TrimBoth(s, t, r);
    r
  }

  /** Trimming whitespace from the start, then from the end, leaves a middle slice of the text. */
  lemma TrimBoth(s: string, t: string, r: string)
    requires |t| <= |s| && t == s[|s| - |t|..] && forall i :: 0 <= i < |s| - |t| ==> IsSpace(s[i])
    requires t != [] ==> !IsSpace(t[0])
    requires |r| <= |t| && r == t[..|r|] && forall i :: |r| <= i < |t| ==> IsSpace(t[i])
    requires r != [] ==> !IsSpace(r[|r| - 1])
    ensures |r| <= |s| && Surrounds(s, |s| - |t|, r)
    ensures r != [] ==> !IsSpace(r[0]) && !IsSpace(r[|r| - 1])
    ensures (forall i :: 0 <= i < |s| ==> !IsSpace(s[i])) ==> r == s
  {
    var a := |s| - |t|;
    assert r != [] ==> r[0] == t[0];
    SliceChain(s, t, r, a);
    assert a > 0 ==> IsSpace(s[0]);
    assert a == 0 && |r| < |t| ==> IsSpace(s[|s| - 1]) by {
      if a == 0 && |r| < |t| {
        assert s[|s| - 1] == t[|t| - 1];
      }
    }
    forall i | a + |r| <= i < |s| ensures IsSpace(s[i]) {
      assert s[i] == t[i - a];
    }
  }

  lemma SliceChain(s: string, t: string, r: string, a: nat)
    requires a <= |s| && t == s[a..] && |r| <= |t| && r == t[..|r|]
    ensures r == s[a..a + |r|]
  {
  }

  /** Header normalisation: `name.strip().lower().replace(" ", "_")`. */
  function NormalizeHeader(name: string): (r: string)
    ensures ' ' !in r
    ensures |r| == |Strip(name)|
    ensures forall i :: 0 <= i < |r| ==> r[i] == (if Strip(name)[i] == ' ' then '_' else ToLower(Strip(name)[i]))
  {
    Replace(Lower(Strip(name)), ' ', '_')
  }

  /** Output column label: `name.replace("_", " ").title().strip()`. */
  function ColumnLabel(name: string): (r: string)
    ensures |r| <= |name| && '_' !in r
    ensures r != [] ==> !IsSpace(r[0]) && !IsSpace(r[|r| - 1])
  {
    var t := Title(Replace(name, '_', ' '));
    assert '_' !in t by {
      forall i | 0 <= i < |t| ensures t[i] != '_' {
        assert Replace(name, '_', ' ')[i] != '_';
      }
    }
    StripKeepsOut(t, '_');
    Strip(t)
  }

  /** Stripping adds no character. */
  lemma StripKeepsOut(s: string, c: char)
    requires c !in s
    ensures c !in Strip(s)
  {
    var r := Strip(s);
    var a: nat :| Surrounds(s, a, r);
    SliceKeepsOut(s, a, r, c);
  }

  lemma SliceKeepsOut(s: string, a: nat, r: string, c: char)
    requires c !in s && a + |r| <= |s| && r == s[a..a + |r|]
    ensures c !in r
  {
    forall i | 0 <= i < |r| ensures r[i] != c {
      assert r[i] == s[a + i];
    }
  }

  /** A string that has no whitespace at either end is its own strip. */
  lemma {:induction false} StripUnchanged(s: string)
    requires s != [] ==> !IsSpace(s[0]) && !IsSpace(s[|s| - 1])
    ensures Strip(s) == s
  {
    assert TrimStart(s) == s;
    assert TrimEnd(s) == s;
  }

  /** A normalised header has no whitespace at either end, no upper-case letter and no space. */
  lemma NormalizedForm(name: string, n: string)
    requires n == NormalizeHeader(name)
    ensures n != [] ==> !IsSpace(n[0]) && !IsSpace(n[|n| - 1])
    ensures forall i :: 0 <= i < |n| ==> !IsUpper(n[i]) && n[i] != ' '
  {
    var z := Strip(name);
    NormalizedEnds(z);
    forall i | 0 <= i < |n| ensures !IsUpper(n[i]) && n[i] != ' ' {
      assert n[i] == if z[i] == ' ' then '_' else ToLower(z[i]);
    }
  }

  /** Lower-casing and replacing spaces keep a stripped text's ends free of whitespace. */
  lemma NormalizedEnds(z: string)
    requires z != [] ==> !IsSpace(z[0]) && !IsSpace(z[|z| - 1])
    ensures var n := Replace(Lower(z), ' ', '_');
      n != [] ==> !IsSpace(n[0]) && !IsSpace(n[|n| - 1])
  {
    var l := Lower(z);
    if z != [] {
      assert !IsSpace(l[0]) && !IsSpace(l[|l| - 1]);
    }
  }

  /**
    The output label of a normalised name reads back as that name, provided
    it does not begin or end with an underscore.
   */
  lemma LabelRoundTrip(n: string)
    requires n != [] ==> !IsSpace(n[0]) && !IsSpace(n[|n| - 1]) && n[0] != '_' && n[|n| - 1] != '_'
    requires forall i :: 0 <= i < |n| ==> !IsUpper(n[i]) && n[i] != ' '
    ensures NormalizeHeader(ColumnLabel(n)) == n
  {
    var u := Replace(n, '_', ' ');
    var t := Title(u);
    TitleKeepsEnds(u);
    StripUnchanged(t);
    LowerUndoesTitle(u);
    assert Replace(u, ' ', '_') == n;
  }

  /** Title-casing keeps whitespace where it was. */
  lemma TitleKeepsEnds(u: string)
    ensures u != [] && !IsSpace(u[0]) ==> !IsSpace(Title(u)[0])
    ensures u != [] && !IsSpace(u[|u| - 1]) ==> !IsSpace(Title(u)[|u| - 1])
  {
    var t := Title(u);
    forall i | 0 <= i < |u| && !IsSpace(u[i]) ensures !IsSpace(t[i]) {
      if IsLetter(u[i]) {
        assert IsLetter(t[i]);
      }
    }
  }

  /** Lower-casing undoes title-casing on text without upper-case letters. */
  lemma LowerUndoesTitle(u: string)
    requires forall i :: 0 <= i < |u| ==> !IsUpper(u[i])
    ensures Lower(Title(u)) == u
  {
    var t := Title(u);
    forall i | 0 <= i < |u| ensures Lower(t)[i] == u[i] {
      assert ToLower(t[i]) == ToLower(u[i]);
    }
  }

  /** Normalising a header twice gives the same name as normalising it once. */
  lemma NormalizeIdempotent(name: string)
    ensures NormalizeHeader(NormalizeHeader(name)) == NormalizeHeader(name)
  {
    var n := NormalizeHeader(name);
    NormalizedForm(name, n);
    StripUnchanged(n);
    assert Lower(n) == n;
    assert Replace(n, ' ', '_') == n;
  }


  // ---------------------------------------------------------------------
  // The fixed patterns

  /** Lazy `.*?\)` from position `j`: the first `)` at or after `j`, provided no newline comes before it. */
  function CloseAt(s: string, j: nat): (r: Option<nat>)
    decreases |s| - j
    ensures r.Some? ==> j <= r.value < |s| && s[r.value] == ')'
    ensures r.Some? ==> forall k :: j <= k < r.value ==> s[k] != ')' && s[k] != '\n'
    ensures r.None? ==> forall k :: j <= k < |s| && s[k] == ')' ==> exists m :: j <= m < k && s[m] == '\n'
  {
    if j >= |s| then None
    else if s[j] == ')' then Some(j)
    else if s[j] == '\n' then None
    else CloseAt(s, j + 1)
  }

  /** `re.search(r"\((.*?)\)", s)` from position `i`: the leftmost `(` at or after `i` that has a closing match, and that match's `)`. */
  function SearchGroup(s: string, i: nat): (r: Option<(nat, nat)>)
    decreases |s| - i
    ensures r.Some? ==> i <= r.value.0 < r.value.1 < |s| && s[r.value.0] == '('
    ensures r.Some? ==> CloseAt(s, r.value.0 + 1) == Some(r.value.1)
    ensures r.Some? ==> forall k :: i <= k < r.value.0 && s[k] == '(' ==> CloseAt(s, k + 1).None?
    ensures r.None? ==> forall k :: i <= k < |s| && s[k] == '(' ==> CloseAt(s, k + 1).None?
  {
    if i >= |s| then None
    else if s[i] == '(' && CloseAt(s, i + 1).Some? then Some((i, CloseAt(s, i + 1).value))
    else SearchGroup(s, i + 1)
  }

  /** The center tag of a teacher text: the first group of `\((.*?)\)`, or "" when nothing matches. */
  function Center(teacher: string): (r: string)
    ensures ')' !in r && '\n' !in r
  {
    match SearchGroup(teacher, 0)
    case Some((a, b)) => teacher[a + 1..b]
    case None => ""
  }

  /** End of the run of whitespace that starts at position `i`. */
  function SpaceRunEnd(s: string, i: nat): (r: nat)
    requires i <= |s|
    decreases |s| - i
    ensures i <= r <= |s|
    ensures forall k :: i <= k < r ==> IsSpace(s[k])
    ensures r < |s| ==> !IsSpace(s[r])
  {
    if i < |s| && IsSpace(s[i]) then SpaceRunEnd(s, i + 1) else i
  }

  /**
    `s[..n]` is a match of `\s*\(.*?\)`: whitespace up to position `q`, a `(`
    there, then text without `)` or newline, then the `)` at position `n - 1`.
   */
  predicate GroupAt(s: string, q: nat, n: nat) {
    q + 2 <= n <= |s| && (forall k :: 0 <= k < q ==> IsSpace(s[k])) && s[q] == '(' && s[n - 1] == ')' &&
    forall k :: q < k < n - 1 ==> s[k] != ')' && s[k] != '\n'
  }

  /** Length of the match of `\s*\(.*?\)` at the start of `s`, if it matches there. */
  function MatchLength(s: string): (r: Option<nat>)
    ensures r.Some? ==> 2 <= r.value <= |s| && s[r.value - 1] == ')'
  {
    var q := SpaceRunEnd(s, 0);
    if q < |s| && s[q] == '(' then
      match CloseAt(s, q + 1)
      case Some(j) => Some(j + 1)
      case None => None
    else None
  }

  /** `MatchLength` gives `n` exactly when `s[..n]` is a match of the pattern. */
  lemma MatchLengthMeans(s: string, n: nat)
    ensures MatchLength(s) == Some(n) <==> exists q :: GroupAt(s, q, n)
  {
    if MatchLength(s) == Some(n) {
      assert GroupAt(s, SpaceRunEnd(s, 0), n);
    }
    if q :| GroupAt(s, q, n) {
      MatchLengthFinds(s, q, n);
    }
  }

  lemma MatchLengthFinds(s: string, q: nat, n: nat)
    requires GroupAt(s, q, n)
    ensures MatchLength(s) == Some(n)
  {
    assert !IsSpace(s[q]);
    assert q == SpaceRunEnd(s, 0);
    CloseAtFinds(s, q + 1, n - 1);
  }

  /** `re.sub(r"\s*\(.*?\)", "", s)`: scan left to right, deleting every match. */
  function RemoveGroups(s: string): (r: string)
    decreases |s|
    ensures |r| <= |s|
    ensures '(' !in s ==> r == s
  {
    if s == [] then []
    else match MatchLength(s)
      case Some(n) =>
        assert s[SpaceRunEnd(s, 0)] == '(';
        RemoveGroups(s[n..])
      case None =>
        assert '(' !in s ==> '(' !in s[1..] && [s[0]] + s[1..] == s;
        [s[0]] + RemoveGroups(s[1..])
  }

  /** The cleaned teacher name: title-cased first, parenthesised groups removed afterwards. */
  function TeacherClean(teacher: string): (r: string)
    ensures |r| <= |teacher|
    ensures '(' !in teacher ==> r == Title(teacher)
  {
    var t := Title(teacher);
    assert '(' !in teacher ==> '(' !in t by {
      if '(' !in teacher {
        forall i | 0 <= i < |teacher| ensures t[i] != '(' {
          assert teacher[i] != '(';
        }
      }
    }
    RemoveGroups(t)
  }

  /** No `(` is followed, anywhere later, by a `)`. */
  predicate NoGroup(s: string) {
    forall i, j :: 0 <= i < j < |s| && s[i] == '(' ==> s[j] != ')'
  }

  /** `idx` lists, in increasing order, the positions of `s` that spell out `r`. */
  predicate Embeds(r: string, s: string, idx: seq<nat>) {
    |idx| == |r| && (forall k :: 0 <= k < |idx| ==> idx[k] < |s| && s[idx[k]] == r[k]) &&
    forall k, l :: 0 <= k < l < |idx| ==> idx[k] < idx[l]
  }

  /** The substitution only deletes: its output is a subsequence of its input. */
  lemma {:induction false} RemoveGroupsKeepsChars(s: string)
    decreases |s|
    ensures exists idx :: Embeds(RemoveGroups(s), s, idx)
  {
    var r := RemoveGroups(s);
    if s == [] {
      assert Embeds(r, s, []);
    } else {
      match MatchLength(s)
      case Some(n) =>
        RemoveGroupsKeepsChars(s[n..]);
        var rest :| Embeds(r, s[n..], rest);
        EmbedsDrop(r, s, n, rest);
      case None =>
        RemoveGroupsKeepsChars(s[1..]);
        var rest :| Embeds(RemoveGroups(s[1..]), s[1..], rest);
        EmbedsCons(RemoveGroups(s[1..]), s, rest);
    }
  }

  /** Every character of the substitution's output occurs in its input. */
  lemma RemoveGroupsOnlyFrom(s: string)
    ensures forall i :: 0 <= i < |RemoveGroups(s)| ==> RemoveGroups(s)[i] in s
  {
    var r := RemoveGroups(s);
    RemoveGroupsKeepsChars(s);
    var idx :| Embeds(r, s, idx);
    assert forall i :: 0 <= i < |r| ==> r[i] == s[idx[i]];
  }

  /** A subsequence of a suffix is a subsequence of the whole. */
  lemma EmbedsDrop(r: string, s: string, n: nat, rest: seq<nat>)
    requires n <= |s| && Embeds(r, s[n..], rest)
    ensures exists idx :: Embeds(r, s, idx)
  {
    var idx := seq(|rest|, k requires 0 <= k < |rest| => rest[k] + n);
    assert forall k :: 0 <= k < |idx| ==> s[idx[k]] == s[n..][rest[k]];
    assert Embeds(r, s, idx);
  }

  /** Keeping the first character and a subsequence of the rest gives a subsequence. */
  lemma EmbedsCons(r: string, s: string, rest: seq<nat>)
    requires s != [] && Embeds(r, s[1..], rest)
    ensures exists idx :: Embeds([s[0]] + r, s, idx)
  {
    var t := [s[0]] + r;
    var idx := [0] + seq(|rest|, k requires 0 <= k < |rest| => rest[k] + 1);
    assert forall k :: 0 < k < |idx| ==> idx[k] == rest[k - 1] + 1 && t[k] == r[k - 1];
    assert forall k :: 0 < k < |idx| ==> s[idx[k]] == s[1..][rest[k - 1]];
    assert Embeds(t, s, idx);
  }

  /** If no `)` follows position `j` before a newline, and the text has no newline, no `)` follows at all. */
  lemma NoCloseWithoutNewline(s: string, j: nat)
    requires '\n' !in s
    requires CloseAt(s, j).None?
    ensures forall k :: j <= k < |s| ==> s[k] != ')'
  {
  }

  /** On a text without newlines, the substitution leaves no `(` that a `)` follows. */
  lemma {:induction false} RemoveGroupsLeavesNoGroup(s: string)
    requires '\n' !in s
    decreases |s|
    ensures NoGroup(RemoveGroups(s))
  {
    if s != [] {
      match MatchLength(s)
      case Some(n) =>
        assert '\n' !in s[n..];
        RemoveGroupsLeavesNoGroup(s[n..]);
      case None =>
        var rest := RemoveGroups(s[1..]);
        assert '\n' !in s[1..];
        RemoveGroupsLeavesNoGroup(s[1..]);
        assert RemoveGroups(s) == [s[0]] + rest;
        if s[0] == '(' {
          assert SpaceRunEnd(s, 0) == 0;
          assert CloseAt(s, 1).None?;
          NoCloseWithoutNewline(s, 1);
          RemoveGroupsOnlyFrom(s[1..]);
          forall j | 0 <= j < |rest| ensures rest[j] != ')' {
            assert rest[j] in s[1..];
          }
        }
        forall i, j | 0 <= i < j < |RemoveGroups(s)| && RemoveGroups(s)[i] == '('
          ensures RemoveGroups(s)[j] != ')'
        {
          assert RemoveGroups(s)[j] == rest[j - 1];
          if i > 0 {
            assert rest[i - 1] == '(';
          }
        }
    }
  }

  /** A teacher text without newlines cleans to a name with no parenthesised group left. */
  lemma TeacherCleanHasNoGroup(teacher: string)
    ensures '\n' !in teacher ==> NoGroup(TeacherClean(teacher))
  {
    if '\n' !in teacher {
      assert '\n' !in Title(teacher) by {
        forall i | 0 <= i < |teacher| ensures Title(teacher)[i] != '\n' {
          assert teacher[i] != '\n';
        }
      }
      RemoveGroupsLeavesNoGroup(Title(teacher));
    }
  }

  /** On a text without newlines the center is the text between the first `(` and the nearest `)` after it. */
  lemma CenterIsFirstGroup(teacher: string, a: nat, b: nat)
    requires '\n' !in teacher
    requires a < b < |teacher| && teacher[a] == '(' && teacher[b] == ')'
    requires '(' !in teacher[..a] && ')' !in teacher[a + 1..b]
    ensures Center(teacher) == teacher[a + 1..b]
  {
    assert forall k :: a + 1 <= k < b ==> teacher[k] in teacher[a + 1..b];
    assert CloseAt(teacher, a + 1) == Some(b) by {
      CloseAtFinds(teacher, a + 1, b);
    }
    assert forall k :: 0 <= k < a ==> teacher[k] in teacher[..a];
    SearchGroupFinds(teacher, 0, a);
  }

  /** No `(` that is followed by a `)` means an empty center. */
  lemma CenterEmptyWithoutGroup(teacher: string)
    requires NoGroup(teacher)
    ensures Center(teacher) == ""
  {
  }

  /** When no `(` has a `)` reachable before a newline, the search finds nothing and the center is empty. */
  lemma CenterEmptyWithoutMatch(teacher: string)
    requires forall k :: 0 <= k < |teacher| && teacher[k] == '(' ==> CloseAt(teacher, k + 1).None?
    ensures Center(teacher) == ""
  {
  }

  lemma {:induction false} CloseAtFinds(s: string, j: nat, b: nat)
    requires j <= b < |s| && s[b] == ')'
    requires forall k :: j <= k < b ==> s[k] != ')' && s[k] != '\n'
    decreases b - j
    ensures CloseAt(s, j) == Some(b)
  {
    if j < b {
      CloseAtFinds(s, j + 1, b);
    }
  }

  /**
    In any text, the center is the text after the first `(` that has a `)`
    reachable before a newline, up to the nearest such `)`.
   */
  lemma CenterGeneral(teacher: string, a: nat, b: nat)
    requires a < |teacher| && teacher[a] == '(' && CloseAt(teacher, a + 1) == Some(b)
    requires forall k :: 0 <= k < a && teacher[k] == '(' ==> CloseAt(teacher, k + 1).None?
    ensures Center(teacher) == teacher[a + 1..b]
  {
    SearchGroupFinds(teacher, 0, a);
  }

  lemma {:induction false} SearchGroupFinds(s: string, i: nat, a: nat)
    requires i <= a < |s| && s[a] == '(' && CloseAt(s, a + 1).Some?
    requires forall k :: i <= k < a && s[k] == '(' ==> CloseAt(s, k + 1).None?
    decreases a - i
    ensures SearchGroup(s, i) == Some((a, CloseAt(s, a + 1).value))
  {
    if i < a {
      SearchGroupFinds(s, i + 1, a);
    }
  }
  /** A prefix without `(` that does not end in whitespace passes through the substitution untouched. */
  lemma {:induction false} RemoveGroupsPlainPrefix(p: string, q: string)
    requires '(' !in p
    requires p != [] ==> !IsSpace(p[|p| - 1])
    decreases |p|
    ensures RemoveGroups(p + q) == p + RemoveGroups(q)
  {
    if p != [] {
      var s := p + q;
      var k := SpaceRunEnd(s, 0);
      assert s[|p| - 1] == p[|p| - 1];
      assert k < |p|;
      assert s[k] == p[k];
      assert MatchLength(s).None?;
      assert s[1..] == p[1..] + q;
      assert '(' !in p[1..];
      RemoveGroupsPlainPrefix(p[1..], q);
      assert RemoveGroups(s) == [s[0]] + RemoveGroups(s[1..]);
      calc {
        RemoveGroups(p + q);
        [s[0]] + RemoveGroups(s[1..]);
        [p[0]] + RemoveGroups(p[1..] + q);
        [p[0]] + (p[1..] + RemoveGroups(q));
        { assert [p[0]] + p[1..] == p; }
        p + RemoveGroups(q);
      }
    } else {
      assert p + q == q;
    }
  }

  /**
    A match of the pattern after a plain prefix is deleted, and the scan goes
    on after it: the prefix and whatever the rest becomes are kept.
   */
  lemma RemoveGroupsDropsGroup(p: string, g: string, q: string, q0: nat)
    requires '(' !in p
    requires p != [] ==> !IsSpace(p[|p| - 1])
    requires GroupAt(g, q0, |g|)
    ensures RemoveGroups(p + g + q) == p + RemoveGroups(q)
  {
    var s := g + q;
    assert GroupAt(s, q0, |g|);
    MatchLengthFinds(s, q0, |g|);
    assert s[|g|..] == q;
    assert RemoveGroups(s) == RemoveGroups(q);
    RemoveGroupsPlainPrefix(p, s);
    assert p + g + q == p + s;
  }

  /** No match of the pattern starts inside the first `n` characters of `s`. */
  predicate NoMatchBefore(s: string, n: nat) {
    n <= |s| && forall i :: 0 <= i < n ==> MatchLength(s[i..]).None?
  }

  /**
    A prefix in which no match of the pattern starts passes through the
    substitution untouched, even when it holds a `(` that opens no match.
   */
  lemma {:induction false} RemoveGroupsKeepsPrefix(p: string, q: string)
    requires NoMatchBefore(p + q, |p|)
    decreases |p|
    ensures RemoveGroups(p + q) == p + RemoveGroups(q)
  {
    if p == [] {
      assert p + q == q;
    } else {
      KeepFirst(p + q);
      NoMatchShift(p, q);
      RemoveGroupsKeepsPrefix(p[1..], q);
      HeadTail(p, q);
    }
  }

  /** Where no match starts, the first character is kept and the scan moves on. */
  lemma KeepFirst(s: string)
    requires NoMatchBefore(s, 1)
    ensures RemoveGroups(s) == [s[0]] + RemoveGroups(s[1..])
  {
    assert s[0..] == s;
  }

  lemma NoMatchShift(p: string, q: string)
    requires p != [] && NoMatchBefore(p + q, |p|)
    ensures (p + q)[1..] == p[1..] + q && NoMatchBefore(p[1..] + q, |p| - 1)
  {
    var s, t := p + q, p[1..] + q;
    assert s[1..] == t;
    forall i | 0 <= i < |p| - 1
      ensures MatchLength(t[i..]).None?
    {
      assert t[i..] == s[i + 1..];
    }
  }

  lemma HeadTail(p: string, q: string)
    requires p != []
    ensures [(p + q)[0]] + (p[1..] + RemoveGroups(q)) == p + RemoveGroups(q)
  {
    assert [p[0]] + p[1..] == p;
  }

  /** Text in which no match of the pattern starts is left unchanged. */
  lemma RemoveGroupsNoMatch(s: string)
    requires forall i :: 0 <= i <= |s| ==> MatchLength(s[i..]).None?
    ensures RemoveGroups(s) == s
  {
    assert s + [] == s;
    RemoveGroupsKeepsPrefix(s, []);
  }

  /**
    After a prefix in which no match starts, the first match is deleted and
    the scan goes on after it.
   */
  lemma RemoveGroupsDropsMatch(p: string, g: string, q: string, q0: nat)
    requires NoMatchBefore(p + g + q, |p|)
    requires GroupAt(g, q0, |g|)
    ensures RemoveGroups(p + g + q) == p + RemoveGroups(q)
  {
    var s := g + q;
    assert p + g + q == p + s;
    assert GroupAt(s, q0, |g|);
    MatchLengthFinds(s, q0, |g|);
    assert s[|g|..] == q;
    assert RemoveGroups(s) == RemoveGroups(q);
    RemoveGroupsKeepsPrefix(p, s);
  }

  /** A title-cased teacher text in which no match starts is its own `teacher_clean`. */
  lemma TeacherCleanNoMatch(teacher: string)
    requires forall i :: 0 <= i <= |Title(teacher)| ==> MatchLength(Title(teacher)[i..]).None?
    ensures TeacherClean(teacher) == Title(teacher)
  {
    RemoveGroupsNoMatch(Title(teacher));
  }

  /** The unclosed "Jane (Gc" has no match, so the substitution keeps it whole. */
  lemma UnclosedGroupKept()
    ensures RemoveGroups("Jane (Gc") == "Jane (Gc"
  {
    var s := "Jane (Gc";
    forall i | 0 <= i <= |s|
      ensures MatchLength(s[i..]).None?
    {
      NoCloseAfter(s[i..]);
    }
    RemoveGroupsNoMatch(s);
  }

  /** Without a `)` there is no match. */
  lemma NoCloseAfter(s: string)
    requires ')' !in s
    ensures MatchLength(s).None?
  {
    assert forall k :: 0 <= k < |s| ==> s[k] in s;
  }

  /** In the title-cased teacher text, a group after a plain prefix is removed and the text after it is cleaned in turn. */
  lemma TeacherCleanDropsGroup(teacher: string, p: string, g: string, q: string, q0: nat)
    requires Title(teacher) == p + g + q
    requires '(' !in p
    requires p != [] ==> !IsSpace(p[|p| - 1])
    requires GroupAt(g, q0, |g|)
    ensures TeacherClean(teacher) == p + RemoveGroups(q)
  {
    RemoveGroupsDropsGroup(p, g, q, q0);
  }

  /** The teacher text "Jane Doe (GC)" has center "GC" and cleans to "Jane Doe". */
  lemma JaneDoeExample()
    ensures Center("Jane Doe (GC)") == "GC"
    ensures TeacherClean("Jane Doe (GC)") == "Jane Doe"
  {
    JaneDoeCenter();
    JaneDoeTitle();
    JaneDoeClean();
  }

  lemma JaneDoeClean()
    ensures RemoveGroups("Jane Doe (Gc)") == "Jane Doe"
  {
    var p, g := "Jane Doe", " (Gc)";
    assert p + g == "Jane Doe (Gc)";
    JaneDoeGroup();
    RemoveGroupsPlainPrefix(p, g);
  }

  lemma JaneDoeCenter()
    ensures Center("Jane Doe (GC)") == "GC"
  {
    var s := "Jane Doe (GC)";
    assert '\n' !in s;
    assert s[..9] == "Jane Doe ";
    assert s[10..12] == "GC";
    CenterIsFirstGroup(s, 9, 12);
  }

  lemma JaneDoeTitle()
    ensures Title("Jane Doe (GC)") == "Jane Doe (Gc)"
  {
    var s := "Jane Doe (GC)";
    var t := Title(s);
    assert t[0] == 'J' && t[1] == 'a' && t[2] == 'n' && t[3] == 'e' && t[4] == ' ';
    assert t[5] == 'D' && t[6] == 'o' && t[7] == 'e' && t[8] == ' ';
    assert t[9] == '(' && t[10] == 'G' && t[11] == 'c' && t[12] == ')';
  }

  lemma JaneDoeGroup()
    ensures RemoveGroups(" (Gc)") == []
  {
    var g := " (Gc)";
    assert SpaceRunEnd(g, 0) == 1;
    assert CloseAt(g, 2) == Some(4);
    assert MatchLength(g) == Some(5);
    assert g[5..] == [];
  }

  /**
    Title-casing happens before the groups are removed: in "jane(gc)x" the `x`
    follows `)` and so starts a word, which it would not once the group is gone.
   */
  lemma TitleBeforeRemoval()
    ensures TeacherClean("jane(gc)x") == "JaneX"
    ensures Title(RemoveGroups("jane(gc)x")) == "Janex"
  {
    TitleThenRemove();
    RemoveThenTitle();
  }

  lemma TitleThenRemove()
    ensures TeacherClean("jane(gc)x") == "JaneX"
  {
    var t := Title("jane(gc)x");
    assert t[6] == 'c' && t[8] == 'X';
    assert t == "Jane" + "(Gc)X";
    GroupBeforeX("Jane", "(Gc)X");
  }

  lemma RemoveThenTitle()
    ensures Title(RemoveGroups("jane(gc)x")) == "Janex"
  {
    assert "jane(gc)x" == "jane" + "(gc)x";
    GroupBeforeX("jane", "(gc)x");
    TitleJanex();
  }

  lemma TitleJanex()
    ensures Title("janex") == "Janex"
  {
    var u := Title("janex");
    assert u[4] == 'x';
  }

  lemma GroupBeforeX(p: string, g: string)
    requires |p| == 4 && '(' !in p && !IsSpace(p[3])
    requires |g| == 5 && g[0] == '(' && g[1] != ')' && g[1] != '\n' && g[2] != ')' && g[2] != '\n'
    requires g[3] == ')' && g[4] != '(' && !IsSpace(g[4])
    ensures RemoveGroups(p + g) == p + [g[4]]
  {
    assert SpaceRunEnd(g, 0) == 0;
    assert CloseAt(g, 1) == Some(3);
    assert g[4..] == [g[4]];
    assert MatchLength([g[4]]).None?;
    assert RemoveGroups([g[4]]) == [g[4]];
    assert RemoveGroups(g) == [g[4]];
    RemoveGroupsPlainPrefix(p, g);
  }

  /**
    Why the no-group property needs newline-free text: `.` does not match a
    newline, so a `(` before a newline survives while a later group is
    removed, and its `)` can still follow it.
   */
  lemma NewlineLetsGroupThrough()
    ensures TeacherClean("(\n())") == "()"
    ensures !NoGroup(TeacherClean("(\n())"))
  {
    var s := "(\n())";
    assert Title(s) == s;
    assert SpaceRunEnd(s, 0) == 0;
    assert CloseAt(s, 1) == None;
    assert MatchLength(s) == None;
    var rest := s[1..];
    assert rest == "\n())";
    assert SpaceRunEnd(rest, 0) == 1;
    assert CloseAt(rest, 2) == Some(2);
    assert MatchLength(rest) == Some(3);
    assert rest[3..] == ")";
    var last := ")";
    assert MatchLength(last) == None;
    assert RemoveGroups(last) == ")";
    assert RemoveGroups(rest) == ")";
    assert RemoveGroups(s) == "()";
    var r := TeacherClean(s);
    assert r[0] == '(' && r[1] == ')';
  }
}
