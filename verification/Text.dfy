/**
 * The few JavaScript string operations the userscripts use, over `string` (a
 * sequence of Unicode scalar values): `trim`, `startsWith`, `includes`,
 * `replace` of a first occurrence, `split` on one character, `join`,
 * `padStart(2, '0')`, `parseInt` of a digit string and `Number.toString`.
 */
module Text {
  import opened Common

  /** The code points JavaScript counts as WhiteSpace or LineTerminator: the
      class `\s` matches and the characters `String.prototype.trim` removes. */
  predicate IsSpace(c: char) {
    var n := c as int;
    || (0x09 <= n <= 0x0D) || n == 0x20 || n == 0xA0 || n == 0x1680
    || (0x2000 <= n <= 0x200A) || n == 0x2028 || n == 0x2029 || n == 0x202F
    || n == 0x205F || n == 0x3000 || n == 0xFEFF
  }

  predicate IsDigit(c: char) { '0' <= c <= '9' }

  predicate IsLetter(c: char) { 'A' <= c <= 'Z' || 'a' <= c <= 'z' }

  /** The regular-expression character classes the scripts use. */
  datatype CharClass =
    | Space     // \s
    | Digit     // \d
    | Letter    // [A-Za-z]
    | Word      // \w
    | IdChar    // [a-zA-Z0-9_-]
    | NotAmp    // [^&]

  predicate In(k: CharClass, c: char) {
    match k
    case Space => IsSpace(c)
    case Digit => IsDigit(c)
    case Letter => IsLetter(c)
    case Word => IsLetter(c) || IsDigit(c) || c == '_'
    case IdChar => IsLetter(c) || IsDigit(c) || c == '_' || c == '-'
    case NotAmp => c != '&'
  }

  /** Every character of `s` belongs to class `k`. */
  predicate AllIn(k: CharClass, s: string) {
    forall i :: 0 <= i < |s| ==> In(k, s[i])
  }

  /** Length of the longest run of class-`k` characters starting at `i`: what a
      greedy `k+` (or `k*`) consumes there. */
  function RunLength(s: string, i: nat, k: CharClass): (n: nat)
    requires i <= |s|
    ensures i + n <= |s|
    ensures forall j :: i <= j < i + n ==> In(k, s[j])
    ensures i + n == |s| || !In(k, s[i + n])
    decreases |s| - i
  {
    if i == |s| || !In(k, s[i]) then 0 else 1 + RunLength(s, i + 1, k)
  }

  /** A run is the greedy run exactly when the character after it is outside
      the class: such a run is the only one a backtracking matcher can use. */
  lemma {:induction false} RunLengthUnique(s: string, i: nat, n: nat, k: CharClass)
    requires i + n <= |s|
    requires forall j :: i <= j < i + n ==> In(k, s[j])
    requires i + n == |s| || !In(k, s[i + n])
    ensures RunLength(s, i, k) == n
    decreases n
  {
    if n > 0 {
      RunLengthUnique(s, i + 1, n - 1, k);
    }
  }

  /** Length of the run of class-`k` characters that ends the string. */
  function TrailingRun(s: string, k: CharClass): (n: nat)
    ensures n <= |s|
    ensures forall j :: |s| - n <= j < |s| ==> In(k, s[j])
    ensures n == |s| || !In(k, s[|s| - n - 1])
  {
    if |s| == 0 || !In(k, s[|s| - 1]) then 0 else 1 + TrailingRun(s[..|s| - 1], k)
  }

  // ---------------------------------------------------------------- trim

  /** The first index at or after `i` that is not white space (or `|s|`). */
  function SkipSpace(s: string, i: nat): (e: nat)
    requires i <= |s|
    ensures i <= e <= |s|
    ensures forall k :: i <= k < e ==> IsSpace(s[k])
    ensures e == |s| || !IsSpace(s[e])
    decreases |s| - i
  {
    if i < |s| && IsSpace(s[i]) then SkipSpace(s, i + 1) else i
  }

  /** The start of the white-space run that ends at `j`, not going below `lo`. */
  function SkipSpaceBack(s: string, lo: nat, j: nat): (e: nat)
    requires lo <= j <= |s|
    ensures lo <= e <= j
    ensures forall k :: e <= k < j ==> IsSpace(s[k])
    ensures e == lo || !IsSpace(s[e - 1])
    decreases j - lo
  {
    if lo < j && IsSpace(s[j - 1]) then SkipSpaceBack(s, lo, j - 1) else j
  }

  /** Where `trim` cuts: everything before `b.0` and from `b.1` on is white
      space, and the kept slice neither starts nor ends with white space. */
  function TrimBounds(s: string): (b: (nat, nat))
    ensures b.0 <= b.1 <= |s|
    ensures forall k :: 0 <= k < b.0 ==> IsSpace(s[k])
    ensures forall k :: b.1 <= k < |s| ==> IsSpace(s[k])
    ensures b.0 == b.1 || (!IsSpace(s[b.0]) && !IsSpace(s[b.1 - 1]))
  {
    var start := SkipSpace(s, 0);
    (start, SkipSpaceBack(s, start, |s|))
  }

  /** `String.prototype.trim`: the slice left after removing leading and
      trailing white space. */
  function Trim(s: string): (r: string)
    ensures |r| <= |s|
    ensures |r| == 0 || (!IsSpace(r[0]) && !IsSpace(r[|r| - 1]))
  {
    var b := TrimBounds(s);
    s[b.0..b.1]
  }

  /** A string with no white space in it is its own trim. */
  lemma TrimNoSpace(s: string)
    requires forall j :: 0 <= j < |s| ==> !IsSpace(s[j])
    ensures Trim(s) == s
  {
  }

  // ---------------------------------------------------------------- search

  /** `p` occurs in `s` at index `i`. */
  predicate At(s: string, i: nat, p: string) {
    i + |p| <= |s| && s[i..i + |p|] == p
  }

  /** An occurrence of `a + b` is an occurrence of `a` directly followed by
      one of `b`. */
  lemma AtConcat(s: string, i: nat, a: string, b: string)
    ensures At(s, i, a + b) <==> At(s, i, a) && At(s, i + |a|, b)
  {
    if At(s, i, a + b) {
      assert s[i..i + |a|] == (a + b)[..|a|];
      assert s[i + |a|..i + |a| + |b|] == (a + b)[|a|..];
    }
    if At(s, i, a) && At(s, i + |a|, b) {
      assert s[i..i + |a| + |b|] == s[i..i + |a|] + s[i + |a|..i + |a| + |b|];
    }
  }

  /** The direction of `AtConcat` that puts two adjacent occurrences together. */
  lemma AtJoin(s: string, i: nat, a: string, b: string)
    requires At(s, i, a) && At(s, i + |a|, b)
    ensures At(s, i, a + b)
  {
    AtConcat(s, i, a, b);
  }

  /** The direction of `AtConcat` that takes an occurrence apart. */
  lemma AtSplit(s: string, i: nat, a: string, b: string)
    requires At(s, i, a + b)
    ensures At(s, i, a) && At(s, i + |a|, b)
  {
    AtConcat(s, i, a, b);
  }

  /** Three pieces separated by single spaces occur at `i` when each piece
      and each space occurs in turn. */
  lemma AtSpacedJoin(s: string, i: nat, a: string, b: string, c: string)
    requires At(s, i, a) && At(s, i + |a|, " ") && At(s, i + |a| + 1, b)
    requires At(s, i + |a| + 1 + |b|, " ") && At(s, i + |a| + 2 + |b|, c)
    ensures At(s, i, a + " " + b + " " + c)
  {
    AtJoin(s, i, a, " ");
    AtJoin(s, i, a + " ", b);
    AtJoin(s, i, a + " " + b, " ");
    AtJoin(s, i, a + " " + b + " ", c);
  }

  /** The reverse of `AtSpacedJoin`. */
  lemma AtSpacedSplit(s: string, i: nat, a: string, b: string, c: string)
    requires At(s, i, a + " " + b + " " + c)
    ensures At(s, i, a) && At(s, i + |a|, " ") && At(s, i + |a| + 1, b)
    ensures At(s, i + |a| + 1 + |b|, " ") && At(s, i + |a| + 2 + |b|, c)
  {
    AtSplit(s, i, a + " " + b + " ", c);
    AtSplit(s, i, a + " " + b, " ");
    AtSplit(s, i, a + " ", b);
    AtSplit(s, i, a, " ");
  }

  /** A single character occurs where it stands. */
  lemma AtOne(s: string, i: nat)
    requires i < |s|
    ensures At(s, i, [s[i]])
  {
  }

  /** Character `k` of an occurrence. */
  lemma AtChar(s: string, i: nat, a: string, k: nat)
    requires At(s, i, a) && k < |a|
    ensures s[i + k] == a[k]
  {
    assert s[i..i + |a|][k] == s[i + k];
  }

  /** An occurrence of a string of class `k` covers characters of class `k`. */
  lemma AtAll(s: string, i: nat, a: string, k: CharClass)
    requires At(s, i, a) && AllIn(k, a)
    ensures forall j :: i <= j < i + |a| ==> In(k, s[j])
  {
    forall j | i <= j < i + |a| ensures In(k, s[j]) {
      AtChar(s, i, a, j - i);
    }
  }

  /** A character outside a class is not in a string made of that class. */
  lemma NotIn(k: CharClass, s: string, c: char)
    requires AllIn(k, s) && !In(k, c)
    ensures c !in s
  {
  }

  /** The text a greedy `k+` (or `k*`) consumes at `i`. */
  function Run(s: string, i: nat, k: CharClass): (r: string)
    requires i <= |s|
    ensures i + |r| <= |s| && r == s[i..i + |r|] && AllIn(k, r)
    ensures i + |r| == |s| || !In(k, s[i + |r|])
  {
    s[i..i + RunLength(s, i, k)]
  }

  /** A piece of class `k` directly followed by a character outside `k` is
      exactly what the greedy run at that position consumes. */
  lemma Peel(s: string, i: nat, k: CharClass, piece: string)
    requires At(s, i, piece) && AllIn(k, piece)
    requires i + |piece| < |s| && !In(k, s[i + |piece|])
    ensures Run(s, i, k) == piece
  {
    assert forall j :: i <= j < i + |piece| ==> s[j] == piece[j - i];
    RunLengthUnique(s, i, |piece|, k);
  }

  /** Pieces written end to end. */
  function Concat(pieces: seq<string>): string
    decreases |pieces|
  {
    if |pieces| == 0 then "" else pieces[0] + Concat(pieces[1..])
  }

  /** Consecutive greedy runs of the classes `ks` from `i`, each required to
      be non-empty: what a pattern `k1+k2+...` matches there, when each
      class's run is followed by a character outside that class. */
  function Runs(s: string, i: nat, ks: seq<CharClass>): (r: Option<seq<string>>)
    requires i <= |s|
    ensures r.Some? ==> |r.value| == |ks|
    ensures r.Some? ==> forall j :: 0 <= j < |ks| ==> |r.value[j]| >= 1 && AllIn(ks[j], r.value[j])
    ensures r.Some? ==> At(s, i, Concat(r.value))
    decreases |ks|
  {
    if |ks| == 0 then Some([])
    else
      var first := Run(s, i, ks[0]);
      if |first| == 0 then None
      else match Runs(s, i + |first|, ks[1..])
        case None => None
        case Some(more) =>
          RunAt(s, i, ks[0]);
          AtJoin(s, i, first, Concat(more));
          assert ([first] + more)[1..] == more;
          Some([first] + more)
  }

  /** The runs taken at `i` together with the position just after them. */
  function Scan(s: string, i: nat, ks: seq<CharClass>): (r: Option<(seq<string>, nat)>)
    requires i <= |s|
    ensures r.Some? ==> Runs(s, i, ks) == Some(r.value.0) && r.value.1 == i + |Concat(r.value.0)|
    ensures r.None? ==> Runs(s, i, ks).None?
  {
    match Runs(s, i, ks)
    case None => None
    case Some(g) => Some((g, i + |Concat(g)|))
  }

  /** The greedy run occurs where it is taken. */
  lemma RunAt(s: string, i: nat, k: CharClass)
    requires i <= |s|
    ensures At(s, i, Run(s, i, k))
  {
  }

  /** Runs are the greedy first run followed by the runs after it. */
  lemma RunsCons(s: string, i: nat, ks: seq<CharClass>, pieces: seq<string>)
    requires |ks| >= 1 && |pieces| >= 1 && i <= |s| && Run(s, i, ks[0]) == pieces[0] && |pieces[0]| > 0
    requires Runs(s, i + |pieces[0]|, ks[1..]) == Some(pieces[1..])
    ensures Runs(s, i, ks) == Some(pieces)
  {
    var r := Runs(s, i, ks);
    assert r.Some?;
    assert r.value == [pieces[0]] + pieces[1..];
    assert pieces == [pieces[0]] + pieces[1..];
  }

  /** Pieces of the classes `ks`, written one after the other at `i`, each
      non-empty and followed by a character outside its class. */
  predicate Fits(s: string, i: nat, ks: seq<CharClass>, pieces: seq<string>) {
    && |pieces| == |ks| >= 1
    && (forall j :: 0 <= j < |ks| ==> |pieces[j]| >= 1 && AllIn(ks[j], pieces[j]))
    && (forall j :: 0 <= j < |ks| - 1 ==> !In(ks[j], pieces[j + 1][0]))
    && At(s, i, Concat(pieces))
    && i + |Concat(pieces)| < |s| && !In(ks[|ks| - 1], s[i + |Concat(pieces)|])
  }

  /** The first fitting piece is the greedy run at `i`. */
  lemma FitsHead(s: string, i: nat, ks: seq<CharClass>, pieces: seq<string>)
    requires Fits(s, i, ks, pieces)
    ensures i <= |s| && Run(s, i, ks[0]) == pieces[0]
  {
    var more := Concat(pieces[1..]);
    assert Concat(pieces) == pieces[0] + more;
    AtSplit(s, i, pieces[0], more);
    if |ks| == 1 {
      assert more == [];
    } else {
      assert more == pieces[1] + Concat(pieces[2..]);
      AtChar(s, i + |pieces[0]|, more, 0);
    }
    Peel(s, i, ks[0], pieces[0]);
  }

  /** The remaining pieces fit after the first. */
  lemma FitsTail(s: string, i: nat, ks: seq<CharClass>, pieces: seq<string>)
    requires Fits(s, i, ks, pieces) && |ks| >= 2
    ensures Fits(s, i + |pieces[0]|, ks[1..], pieces[1..])
  {
    var more := Concat(pieces[1..]);
    assert Concat(pieces) == pieces[0] + more;
    AtSplit(s, i, pieces[0], more);
    forall j | 0 <= j < |ks| - 1 ensures |pieces[1..][j]| >= 1 && AllIn(ks[1..][j], pieces[1..][j]) {
      assert pieces[1..][j] == pieces[j + 1] && ks[1..][j] == ks[j + 1];
    }
    forall j | 0 <= j < |ks| - 2 ensures !In(ks[1..][j], pieces[1..][j + 1][0]) {
      assert pieces[1..][j + 1] == pieces[j + 2] && ks[1..][j] == ks[j + 1];
    }
    assert ks[1..][|ks| - 2] == ks[|ks| - 1];
  }

  /** Pieces of the given classes written at `i`, each followed by a
      character outside its class, are exactly the runs taken there. */
  lemma {:induction false} RunsOf(s: string, i: nat, ks: seq<CharClass>, pieces: seq<string>)
    requires Fits(s, i, ks, pieces)
    ensures Runs(s, i, ks) == Some(pieces)
    decreases |ks|
  {
    if |ks| == 1 {
      RunsOfOne(s, i, ks, pieces);
    } else {
      FitsTail(s, i, ks, pieces);
      RunsOf(s, i + |pieces[0]|, ks[1..], pieces[1..]);
      RunsOfStep(s, i, ks, pieces);
    }
  }

  /** `RunsOf` for a single class. */
  lemma RunsOfOne(s: string, i: nat, ks: seq<CharClass>, pieces: seq<string>)
    requires Fits(s, i, ks, pieces) && |ks| == 1
    ensures Runs(s, i, ks) == Some(pieces)
  {
    FitsHead(s, i, ks, pieces);
    assert pieces[1..] == [] && ks[1..] == [];
    assert Runs(s, i + |pieces[0]|, []) == Some([]);
    RunsCons(s, i, ks, pieces);
  }

  /** The step of `RunsOf`: the greedy first run, then the runs of the rest. */
  lemma RunsOfStep(s: string, i: nat, ks: seq<CharClass>, pieces: seq<string>)
    requires Fits(s, i, ks, pieces) && |ks| >= 2
    requires i + |pieces[0]| <= |s| && Runs(s, i + |pieces[0]|, ks[1..]) == Some(pieces[1..])
    ensures Runs(s, i, ks) == Some(pieces)
  {
    FitsHead(s, i, ks, pieces);
    RunsCons(s, i, ks, pieces);
  }

  /** The same fact, read through `Scan`. */
  lemma ScanOf(s: string, i: nat, ks: seq<CharClass>, pieces: seq<string>)
    requires Fits(s, i, ks, pieces)
    ensures Scan(s, i, ks) == Some((pieces, i + |Concat(pieces)|))
  {
    RunsOf(s, i, ks, pieces);
  }

  /** `s.startsWith(p)` */
  predicate StartsWith(s: string, p: string) {
    At(s, 0, p)
  }

  /** `s.includes(p)` */
  predicate Contains(s: string, p: string) {
    exists i: nat | i <= |s| :: At(s, i, p)
  }

  /** The first index at or after `from` where `p` occurs (`indexOf`). */
  function IndexOf(s: string, p: string, from: nat): (r: Option<nat>)
    ensures r.Some? ==> from <= r.value && At(s, r.value, p)
    ensures r.Some? ==> forall j: nat :: from <= j < r.value ==> !At(s, j, p)
    ensures r.None? ==> forall j: nat :: from <= j ==> !At(s, j, p)
    decreases |s| - from
  {
    if from + |p| > |s| then None
    else if At(s, from, p) then Some(from)
    else IndexOf(s, p, from + 1)
  }

  /** `s.replace(p, '')` with a string pattern: deletes the first occurrence. */
  function ReplaceFirst(s: string, p: string): (r: string)
  {
    match IndexOf(s, p, 0)
    case None => s
    case Some(i) => s[..i] + s[i + |p|..]
  }

  /** Deleting a pattern that the string starts with leaves the remainder. */
  lemma ReplaceFirstPrefix(s: string, p: string)
    requires StartsWith(s, p)
    ensures ReplaceFirst(s, p) == s[|p|..]
  {
    assert IndexOf(s, p, 0) == Some(0);
  }

  /** Deleting the first occurrence: the text is unchanged when there is
      none, and otherwise loses exactly the leftmost occurrence. */
  lemma ReplaceFirstSpec(s: string, p: string)
    ensures !Contains(s, p) ==> ReplaceFirst(s, p) == s
    ensures forall i: nat ::
              At(s, i, p) && (forall j: nat :: j < i ==> !At(s, j, p))
              ==> ReplaceFirst(s, p) == s[..i] + s[i + |p|..]
  {
    match IndexOf(s, p, 0)
    case None =>
    case Some(k) =>
      assert Contains(s, p);
      forall i: nat | At(s, i, p) && (forall j: nat :: j < i ==> !At(s, j, p))
        ensures ReplaceFirst(s, p) == s[..i] + s[i + |p|..]
      {
        assert !(i < k);
        assert !(k < i);
      }
  }

  /** `s.replace(/c/g, '')`: every `c` removed, every other character kept in order. */
  function RemoveAll(s: string, c: char): (r: string)
    ensures c !in r
    ensures c !in s ==> r == s
    ensures forall x :: x != c ==> multiset(r)[x] == multiset(s)[x]
    ensures |r| == |s| - multiset(s)[c]
    ensures |s| == 1 ==> r == (if s[0] == c then "" else s)
  {
    if |s| == 0 then ""
    else
      var rest := RemoveAll(s[1..], c);
      assert s == [s[0]] + s[1..];
      if s[0] == c then rest else [s[0]] + rest
  }

  /** Removal works piece by piece: with the one-character case above, this
      fixes the result, every kept character in its original order. */
  lemma {:induction false} RemoveAllAppend(a: string, b: string, c: char)
    ensures RemoveAll(a + b, c) == RemoveAll(a, c) + RemoveAll(b, c)
    decreases |a|
  {
    if |a| == 0 {
      assert a + b == b;
    } else {
      assert (a + b)[1..] == a[1..] + b;
      RemoveAllAppend(a[1..], b, c);
    }
  }

  /** Removing every `c` is the same as writing the pieces between the `c`s
      end to end. */
  lemma {:induction false} RemoveAllPieces(s: string, c: char)
    ensures RemoveAll(s, c) == Concat(Split(s, c))
    decreases |s|
  {
    if |s| > 0 {
      RemoveAllPieces(s[1..], c);
      var rest := Split(s[1..], c);
      assert Concat(rest) == rest[0] + Concat(rest[1..]);
      if s[0] != c {
        assert Split(s, c)[1..] == rest[1..];
      }
    }
  }

  // ---------------------------------------------------------------- split / join

  /** `parts.join(sep)` */
  function Join(parts: seq<string>, sep: char): string
  {
    if |parts| == 0 then ""
    else if |parts| == 1 then parts[0]
    else parts[0] + [sep] + Join(parts[1..], sep)
  }

  /** `s.split(sep)` for a one-character separator: the pieces between
      separators, at least one, none containing the separator. */
  function Split(s: string, sep: char): (r: seq<string>)
    ensures |r| >= 1
    ensures forall i :: 0 <= i < |r| ==> sep !in r[i]
  {
    if |s| == 0 then [""]
    else
      var rest := Split(s[1..], sep);
      if s[0] == sep then [""] + rest
      else [[s[0]] + rest[0]] + rest[1..]
  }

  /** Joining the pieces of a split restores the string. */
  lemma {:induction false} JoinSplit(s: string, sep: char)
    ensures Join(Split(s, sep), sep) == s
    decreases |s|
  {
    if |s| > 0 {
      var rest := Split(s[1..], sep);
      JoinSplit(s[1..], sep);
      var r := Split(s, sep);
      if s[0] == sep {
        assert r[1..] == rest;
      } else if |rest| > 1 {
        assert r[1..] == rest[1..];
      }
      assert s == [s[0]] + s[1..];
    }
  }

  /** A split has one more piece than the string has separators. */
  lemma {:induction false} SplitCount(s: string, sep: char)
    ensures |Split(s, sep)| == multiset(s)[sep] + 1
    decreases |s|
  {
    if |s| > 0 {
      SplitCount(s[1..], sep);
      assert s == [s[0]] + s[1..];
    }
  }

  /** The first piece is the longest prefix free of the separator. */
  lemma {:induction false} SplitFirst(s: string, sep: char)
    ensures |Split(s, sep)[0]| <= |s| && Split(s, sep)[0] == s[..|Split(s, sep)[0]|]
    ensures |Split(s, sep)[0]| == |s| || s[|Split(s, sep)[0]|] == sep
    decreases |s|
  {
    if |s| > 0 {
      SplitFirst(s[1..], sep);
    }
  }

  /** Splitting a separator-joined list whose parts do not contain the
      separator gives the parts back. */
  lemma {:induction false} SplitJoin(parts: seq<string>, sep: char)
    requires |parts| >= 1
    requires forall i :: 0 <= i < |parts| ==> sep !in parts[i]
    ensures Split(Join(parts, sep), sep) == parts
    decreases |parts|, |parts[0]|, 1
  {
    if |parts[0]| > 0 {
      SplitJoinChar(parts, sep);
    } else if |parts| > 1 {
      SplitJoinSep(parts, sep);
    }
  }

  /** `SplitJoin` when the first part starts with a character. */
  lemma {:induction false} SplitJoinChar(parts: seq<string>, sep: char)
    requires |parts| >= 1 && |parts[0]| > 0
    requires forall i :: 0 <= i < |parts| ==> sep !in parts[i]
    ensures Split(Join(parts, sep), sep) == parts
    decreases |parts|, |parts[0]|, 0
  {
    var p := parts[0];
    var parts' := [p[1..]] + parts[1..];
    SplitJoin(parts', sep);
    assert Join(parts, sep) == [p[0]] + Join(parts', sep) by {
      if |parts| > 1 { assert parts'[1..] == parts[1..]; }
    }
    var s := Join(parts, sep);
    assert s[1..] == Join(parts', sep);
    assert p == [p[0]] + p[1..];
    assert parts == [[p[0]] + parts'[0]] + parts'[1..];
  }

  /** `SplitJoin` when the first part is empty and more follow. */
  lemma {:induction false} SplitJoinSep(parts: seq<string>, sep: char)
    requires |parts| >= 2 && |parts[0]| == 0
    requires forall i :: 0 <= i < |parts| ==> sep !in parts[i]
    ensures Split(Join(parts, sep), sep) == parts
    decreases |parts|, |parts[0]|, 0
  {
    SplitJoin(parts[1..], sep);
    var s := Join(parts, sep);
    assert s == [sep] + Join(parts[1..], sep);
    assert s[1..] == Join(parts[1..], sep);
    assert parts == [""] + parts[1..];
  }

  /** The pieces after the first separator are the split of what follows it. */
  lemma {:induction false} SplitAfterFirst(a: string, b: string, sep: char)
    requires sep !in a
    ensures Split(a + [sep] + b, sep) == [a] + Split(b, sep)
    decreases |a|
  {
    var s := a + [sep] + b;
    if |a| == 0 {
      assert s == [sep] + b;
      assert s[1..] == b;
    } else {
      SplitAfterFirst(a[1..], b, sep);
      assert s[1..] == a[1..] + [sep] + b;
      assert a == [a[0]] + a[1..];
    }
  }

  /** Splitting a text free of the separator gives the text alone. */
  lemma SplitNone(s: string, sep: char)
    requires sep !in s
    ensures Split(s, sep) == [s]
  {
    SplitJoin([s], sep);
  }

  /** `a` + `sep` + `b` splits into `a` and `b` when neither holds `sep`. */
  lemma SplitPair(a: string, b: string, sep: char)
    requires sep !in a && sep !in b
    ensures Split(a + [sep] + b, sep) == [a, b]
  {
    SplitAfterFirst(a, b, sep);
    SplitNone(b, sep);
  }

  /** Regrouping a left-nested `a b:c` after a prefix. */
  lemma Regroup(pre: string, a: string, b: string, c: string)
    ensures pre + a + " " + b + ":" + c == pre + (a + " " + b + ":" + c)
  {
    assert pre + a + " " == pre + (a + " ");
    assert pre + (a + " ") + b == pre + (a + " " + b);
    assert pre + (a + " " + b) + ":" == pre + (a + " " + b + ":");
  }

  /** The first `|x|` characters of `x + y` are `x`. */
  lemma TakeConcat(x: string, y: string)
    ensures (x + y)[..|x|] == x
  {
  }

  /** How many times `sep` occurs in all the parts together. */
  function CountInParts(parts: seq<string>, sep: char): nat
  {
    if |parts| == 0 then 0 else multiset(parts[0])[sep] + CountInParts(parts[1..], sep)
  }

  /** A join holds one separator between consecutive parts plus those inside parts. */
  lemma {:induction false} JoinCount(parts: seq<string>, sep: char)
    requires |parts| >= 1
    ensures multiset(Join(parts, sep))[sep] == CountInParts(parts, sep) + |parts| - 1
    decreases |parts|
  {
    if |parts| > 1 {
      JoinCount(parts[1..], sep);
      assert multiset(Join(parts, sep)) == multiset(parts[0]) + multiset([sep]) + multiset(Join(parts[1..], sep));
    }
  }

  /** Splitting a join yields exactly as many pieces as were joined if and only
      if no part contains the separator. */
  lemma SplitJoinCount(parts: seq<string>, sep: char)
    requires |parts| >= 1
    ensures |Split(Join(parts, sep), sep)| == |parts| <==> forall i :: 0 <= i < |parts| ==> sep !in parts[i]
  {
    JoinCount(parts, sep);
    SplitCount(Join(parts, sep), sep);
    CountInPartsZero(parts, sep);
  }

  lemma {:induction false} CountInPartsZero(parts: seq<string>, sep: char)
    ensures CountInParts(parts, sep) == 0 <==> forall i :: 0 <= i < |parts| ==> sep !in parts[i]
    decreases |parts|
  {
    if |parts| > 0 {
      CountInPartsZero(parts[1..], sep);
      assert forall i :: 1 <= i < |parts| ==> parts[i] == parts[1..][i - 1];
    }
  }

  /** Element `i` of a `split` result, or the text JavaScript's template
      literal produces for a missing element. */
  function Piece(parts: seq<string>, i: nat): string
  {
    if i < |parts| then parts[i] else "undefined"
  }

  // ---------------------------------------------------------------- numbers

  /** `s.padStart(2, '0')` */
  function PadStart2(s: string): (r: string)
    ensures |s| >= 2 ==> r == s
    ensures |s| < 2 ==> |r| == 2
    ensures |r| >= |s| && r[|r| - |s|..] == s
    ensures forall j :: 0 <= j < |r| - |s| ==> r[j] == '0'
  {
    if |s| >= 2 then s else if |s| == 1 then "0" + s else "00"
  }

  function DigitValue(c: char): nat
    requires IsDigit(c)
  {
    (c as int - '0' as int) as nat
  }

  function DigitChar(d: nat): (c: char)
    requires d < 10
    ensures IsDigit(c) && DigitValue(c) == d
  {
    ('0' as int + d) as char
  }

  /** `parseInt` of a string of decimal digits. */
  function DigitsValue(s: string): nat
    requires AllIn(Digit, s)
  {
    if |s| == 0 then 0 else 10 * DigitsValue(s[..|s| - 1]) + DigitValue(s[|s| - 1])
  }

  /** `Number.prototype.toString()` of a natural number: decimal digits with no
      leading zero (just "0" for zero). */
  function NatToString(n: nat): (r: string)
    ensures |r| >= 1 && AllIn(Digit, r)
    ensures n > 0 ==> r[0] != '0'
    ensures n < 10 <==> |r| == 1
    ensures n < 100 ==> |r| <= 2
    decreases n
  {
    if n < 10 then [DigitChar(n)] else NatToString(n / 10) + [DigitChar(n % 10)]
  }

  /** Printing a number and parsing it back gives the number. */
  lemma {:induction false} NatToStringValue(n: nat)
    ensures DigitsValue(NatToString(n)) == n
    decreases n
  {
    if n >= 10 {
      NatToStringValue(n / 10);
      var s := NatToString(n);
      assert s[..|s| - 1] == NatToString(n / 10);
    }
  }

  /** Leading zeros do not change `parseInt`'s value. */
  lemma {:induction false} LeadingZeroValue(s: string)
    requires AllIn(Digit, s)
    ensures AllIn(Digit, "0" + s) && DigitsValue("0" + s) == DigitsValue(s)
    decreases |s|
  {
    if |s| > 0 {
      var t := "0" + s;
      assert t[..|t| - 1] == "0" + s[..|s| - 1];
      LeadingZeroValue(s[..|s| - 1]);
    }
  }
}
