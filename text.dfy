/** The JavaScript string operations the pipeline relies on, over `seq<char>`.
    Lower-casing covers ASCII letters only. */
module Text {
  import opened Wrappers

  predicate StartsWith(s: string, prefix: string)
  {
    |prefix| <= |s| && s[..|prefix|] == prefix
  }

  predicate EndsWith(s: string, suffix: string)
  {
    |suffix| <= |s| && s[|s| - |suffix|..] == suffix
  }

  /** `sub` occurs in `s` starting at position `i`. */
  predicate OccursAt(s: string, sub: string, i: nat)
  {
    i + |sub| <= |s| && s[i..i + |sub|] == sub
  }

  /** `s.includes(sub)`. */
  predicate Contains(s: string, sub: string)
  {
    exists i: nat :: i <= |s| && OccursAt(s, sub, i)
  }

  function LowerChar(ch: char): char
  {
    if 'A' <= ch <= 'Z' then (ch as int + 32) as char else ch
  }

  /** `s.toLowerCase()` restricted to ASCII letters. */
  function Lower(s: string): (r: string)
    ensures |r| == |s|
    ensures forall i :: 0 <= i < |s| ==> r[i] == LowerChar(s[i])
  {
    seq(|s|, i requires 0 <= i < |s| => LowerChar(s[i]))
  }

  /** `s.replace(/a/g, b)`: every occurrence of one character replaced. */
  function ReplaceChar(s: string, a: char, b: char): (r: string)
    ensures |r| == |s|
    ensures forall i :: 0 <= i < |s| ==> r[i] == (if s[i] == a then b else s[i])
  {
    seq(|s|, i requires 0 <= i < |s| => if s[i] == a then b else s[i])
  }

  /** Position of the first occurrence of `c` in `s`, if any. */
  function IndexOf(s: string, c: char): (r: Option<nat>)
    ensures r.None? <==> c !in s
    ensures r.Some? ==> r.value < |s| && s[r.value] == c && c !in s[..r.value]
  {
    if |s| == 0 then None
    else if s[0] == c then Some(0)
    else
      var rest := IndexOf(s[1..], c);
      assert s[1..] == s[..|s|][1..];
      if rest.None? then None
      else
        assert s[..rest.value + 1] == [s[0]] + s[1..][..rest.value];
        Some(rest.value + 1)
  }

  /** `s.replace(a, b)` with a one-character string pattern: only the first
      occurrence is replaced. */
  function ReplaceFirst(s: string, a: char, b: char): (r: string)
    ensures |r| == |s|
    ensures a !in s ==> r == s
    ensures a in s ==> exists i :: 0 <= i < |s| && a !in s[..i] && r == s[..i] + [b] + s[i + 1..]
  {
    match IndexOf(s, a)
    case None => s
    case Some(i) =>
      var r := s[..i] + [b] + s[i + 1..];
      assert a !in s[..i] && r == s[..i] + [b] + s[i + 1..];
      r
  }

  /** `s.split(c)` for a one-character separator: never empty, and no piece
      contains the separator. The first piece is the text before the first
      separator: a prefix of `s` followed by `c` or by the end of `s`. */
  function Split(s: string, c: char): (parts: seq<string>)
    ensures |parts| >= 1
    ensures forall i :: 0 <= i < |parts| ==> c !in parts[i]
    ensures c !in s ==> parts == [s]
    ensures StartsWith(s, parts[0]) && (|parts[0]| == |s| || s[|parts[0]|] == c)
  {
    if |s| == 0 then [""]
    else
      var rest := Split(s[1..], c);
      if s[0] == c then [""] + rest
      else
        assert c !in s ==> s == [s[0]] + s[1..];
        [[s[0]] + rest[0]] + rest[1..]
  }

  /** `parts.join(c)`. */
  function Join(parts: seq<string>, c: char): string
  {
    if |parts| == 0 then ""
    else if |parts| == 1 then parts[0]
    else parts[0] + [c] + Join(parts[1..], c)
  }

  /** Joining the pieces of a split with the same separator gives back the
      original text. */
  lemma {:induction false} JoinSplit(s: string, c: char)
    ensures Join(Split(s, c), c) == s
  {
    if |s| > 0 {
      var rest := Split(s[1..], c);
      JoinSplit(s[1..], c);
      if s[0] == c {
        assert Split(s, c) == [""] + rest;
        assert Join([""] + rest, c) == "" + [c] + Join(rest, c);
        assert s == [s[0]] + s[1..];
      } else {
        var parts := [[s[0]] + rest[0]] + rest[1..];
        assert Split(s, c) == parts;
        if |rest| == 1 {
          assert Join(parts, c) == [s[0]] + rest[0];
          assert Join(rest, c) == rest[0];
        } else {
          assert parts[1..] == rest[1..];
          assert Join(parts, c) == [s[0]] + rest[0] + [c] + Join(rest[1..], c);
          assert Join(rest, c) == rest[0] + [c] + Join(rest[1..], c);
        }
        assert s == [s[0]] + s[1..];
      }
    }
  }

  /** A text with a single separator splits into the two sides of it. */
  lemma {:induction false} SplitAtOnlySeparator(a: string, b: string, c: char)
    requires c !in a && c !in b
    ensures Split(a + [c] + b, c) == [a, b]
  {
    if |a| == 0 {
      assert a + [c] + b == [c] + b;
      assert ([c] + b)[1..] == b;
    } else {
      SplitAtOnlySeparator(a[1..], b, c);
      assert (a + [c] + b)[1..] == a[1..] + [c] + b;
      assert a == [a[0]] + a[1..];
    }
  }

  /** Joining the first `k` pieces gives a prefix of joining them all. */
  lemma {:induction false} JoinPrefix(parts: seq<string>, k: nat, c: char)
    requires k <= |parts|
    ensures StartsWith(Join(parts, c), Join(parts[..k], c))
  {
    if k == 0 {
      assert Join(parts[..k], c) == "";
    } else if k == |parts| {
      assert parts[..k] == parts;
    } else if k == 1 {
      assert parts[..k] == [parts[0]];
      assert Join(parts, c) == parts[0] + [c] + Join(parts[1..], c);
    } else {
      JoinPrefix(parts[1..], k - 1, c);
      assert parts[1..][..k - 1] == parts[..k][1..];
      var whole := Join(parts[1..], c);
      var front := Join(parts[..k][1..], c);
      assert Join(parts, c) == parts[0] + [c] + whole;
      assert Join(parts[..k], c) == parts[0] + [c] + front;
      assert whole[..|front|] == front;
      assert (parts[0] + [c] + whole)[..|parts[0] + [c] + front|] == parts[0] + [c] + front;
    }
  }

  /** Position of the first occurrence of a non-empty `sep` in `s` at or
      after position `from`, if any. */
  function FindFrom(s: string, sep: string, from: nat): (r: Option<nat>)
    requires |sep| > 0 && from <= |s|
    ensures r.Some? ==> from <= r.value && OccursAt(s, sep, r.value)
    ensures r.Some? ==> forall j: nat :: from <= j < r.value ==> !OccursAt(s, sep, j)
    ensures r.None? ==> forall j: nat :: from <= j ==> !OccursAt(s, sep, j)
    decreases |s| - from
  {
    if from + |sep| > |s| then None
    else if OccursAt(s, sep, from) then Some(from)
    else FindFrom(s, sep, from + 1)
  }

  /** `p` is the first piece of `rest` split at `sep`: a prefix of `rest`
      holding no occurrence of `sep`, followed by one or by the end. */
  predicate IsFirstPiece(rest: string, sep: string, p: string)
  {
    StartsWith(rest, p)
    && (forall j: nat :: j < |p| ==> !OccursAt(rest, sep, j))
    && (|p| == |rest| || OccursAt(rest, sep, |p|))
  }

  /** `s.split(sep)[1]`: the text between the first and the second occurrence
      of `sep` (or up to the end), `None` when `sep` does not occur. */
  function SecondPiece(s: string, sep: string): (r: Option<string>)
    requires |sep| > 0
    ensures r.None? <==> !Contains(s, sep)
    ensures r.Some? ==> !Contains(r.value, sep)
    ensures r.Some? ==>
      FindFrom(s, sep, 0).Some? && IsFirstPiece(s[FindFrom(s, sep, 0).value + |sep|..], sep, r.value)
  {
    match FindFrom(s, sep, 0)
    case None => None
    case Some(i) =>
      var rest := s[i + |sep|..];
      match FindFrom(rest, sep, 0)
      case None =>
        assert StartsWith(rest, rest);
        Some(rest)
      case Some(j) =>
        assert StartsWith(rest, rest[..j]);
        assert forall k: nat :: OccursAt(rest[..j], sep, k) ==> OccursAt(rest, sep, k) by {
          forall k: nat | OccursAt(rest[..j], sep, k) ensures OccursAt(rest, sep, k) {
            assert rest[..j][k..k + |sep|] == rest[k..k + |sep|];
          }
        }
        Some(rest[..j])
  }

  /** `s.split(c).pop()`: the text after the last occurrence of `c`, or all
      of `s` when `c` does not occur. */
  function LastPiece(s: string, c: char): (r: string)
    ensures c !in r
    ensures EndsWith(s, r)
    ensures c !in s ==> r == s
    ensures c in s ==> |r| < |s| && s[|s| - |r| - 1] == c
  {
    if c !in s then s
    else
      var i := LastIndexOf(s, c);
      assert s[i + 1..] == s[|s| - |s[i + 1..]|..];
      s[i + 1..]
  }

  /** Position of the last occurrence of `c` in `s`. */
  function LastIndexOf(s: string, c: char): (r: nat)
    requires c in s
    ensures r < |s| && s[r] == c && c !in s[r + 1..]
  {
    if s[|s| - 1] == c then |s| - 1
    else
      assert c in s[..|s| - 1];
      var r := LastIndexOf(s[..|s| - 1], c);
      assert s[r + 1..] == s[..|s| - 1][r + 1..] + [s[|s| - 1]];
      r
  }

  /** Node's `path.extname`: from the last '.' of the last path segment to its
      end, or "" when that segment has no '.' after its first character.
      Node also answers "" for the segment "..", where this gives "."; the
      watchers only ask for the extension of file paths, which never end
      in "..". */
  function ExtName(path: string): (r: string)
    ensures r == "" || (r[0] == '.' && EndsWith(path, r))
    ensures '/' !in r
    ensures var base := LastPiece(path, '/');
      r == "" <==> (|base| == 0 || '.' !in base[1..])
    ensures var base := LastPiece(path, '/');
      r != "" ==> EndsWith(base, r) && |r| < |base| && '.' !in r[1..]
  {
    var base := LastPiece(path, '/');
    var r := BaseExt(base);
    assert r != "" ==> EndsWith(path, r) by {
      if r != "" {
        EndsTransitive(path, base, r);
      }
    }
    r
  }

  /** The extension of one path segment: from its last '.' to its end, or ""
      when it has no '.' after its first character. */
  function BaseExt(base: string): (r: string)
    ensures r == "" <==> (|base| == 0 || '.' !in base[1..])
    ensures r != "" ==> r[0] == '.' && EndsWith(base, r) && |r| < |base| && '.' !in r[1..]
    ensures forall k :: 0 <= k < |r| ==> r[k] in base
  {
    if '.' !in base then
      assert |base| == 0 || '.' !in base[1..] by {
        if |base| > 0 {
          forall k | 0 <= k < |base[1..]| ensures base[1..][k] != '.' {
            assert base[1..][k] == base[k + 1];
          }
        }
      }
      ""
    else
      var i := LastIndexOf(base, '.');
      if i == 0 then
        assert base[1..] == base[i + 1..];
        ""
      else
        assert base[1..][i - 1] == '.';
        assert base[i..][1..] == base[i + 1..];
        assert base[i..] == base[|base| - |base[i..]|..];
        assert forall k :: 0 <= k < |base[i..]| ==> base[i..][k] == base[i + k];
        base[i..]
  }

  lemma EndsTransitive(a: string, b: string, c: string)
    requires EndsWith(a, b) && EndsWith(b, c)
    ensures EndsWith(a, c)
  {
    assert a[|a| - |c|..] == a[|a| - |b|..][|b| - |c|..];
  }
}
