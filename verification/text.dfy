/** String helpers: JavaScript's `Array.prototype.join` and `String.prototype.split`
    on a one-character separator, boolean interpolation and ASCII lower-casing. */
module Text {
  import opened Results

  /** `s` begins with `p`. */
  predicate HasPrefix(s: string, p: string) {
    |p| <= |s| && s[..|p|] == p
  }

  /** `s` ends with `t`. */
  predicate HasSuffix(s: string, t: string) {
    |t| <= |s| && s[|s| - |t|..] == t
  }

  /** A concatenation begins with its first part, and the rest is the second part. */
  lemma PrefixOfConcat(a: string, b: string)
    ensures HasPrefix(a + b, a)
    ensures (a + b)[|a|..] == b
  {
  }

  /** Whether `a + b` ends with `c`, for a `c` no longer than `b`, is decided by `b` alone. */
  lemma SuffixOfConcat(a: string, b: string, c: string)
    requires |c| <= |b|
    ensures HasSuffix(a + b, c) <==> HasSuffix(b, c)
    ensures HasSuffix(a + b, b) && (a + b)[..|a|] == a
  {
  }

  /** What follows `prefix` in `line`, if `line` starts with it. */
  function ValueAfter(line: string, prefix: string): (v: Option<string>)
    ensures v.Some? <==> HasPrefix(line, prefix)
    ensures v.Some? ==> line == prefix + v.value
  {
    if HasPrefix(line, prefix) then
      assert line == line[..|prefix|] + line[|prefix|..];
      Some(line[|prefix|..])
    else None
  }

  /** The value after a prefix is read back exactly. */
  lemma ValueAfterConcat(prefix: string, v: string)
    ensures ValueAfter(prefix + v, prefix) == Some(v)
  {
    PrefixOfConcat(prefix, v);
  }

  /** `s` without its suffix `t`. */
  function DropSuffix(s: string, t: string): (r: string)
    requires HasSuffix(s, t)
    ensures s == r + t
  {
    s[..|s| - |t|]
  }

  /** Two suffixes of one string: the shorter is a suffix of the longer. */
  lemma SuffixesNest(x: string, a: string, b: string)
    requires HasSuffix(x, a) && HasSuffix(x, b) && |b| <= |a|
    ensures HasSuffix(a, b)
  {
  }

  /** A middle part framed by a head and a tail can be cut back out. */
  lemma Framed(p: string, m: string, t: string)
    ensures HasPrefix(p + m + t, p) && HasSuffix(p + m + t, t)
    ensures |p| + |t| <= |p + m + t|
    ensures (p + m + t)[|p|..|p + m + t| - |t|] == m
  {
  }

  /** A prefix extended by the next stretch is the longer prefix. */
  lemma PrefixExtend<T>(s: seq<T>, i: nat, j: nat)
    requires i <= j <= |s|
    ensures s[..i] + s[i..j] == s[..j]
  {
  }

  /** A sequence is its head, middle and tail put back together. */
  lemma Recompose<T>(s: seq<T>, i: nat, j: nat)
    requires i <= j <= |s|
    ensures s == s[..i] + s[i..j] + s[j..]
  {
  }

  /** JavaScript's rendering of a boolean inside a template literal. */
  function BoolText(b: bool): (t: string)
    ensures t == "true" || t == "false"
    ensures t == "true" <==> b
  {
    if b then "true" else "false"
  }

  /** Reads back what `BoolText` renders; anything else is not a boolean. */
  function ReadBool(t: string): (r: Option<bool>)
    ensures r.Some? <==> t == "true" || t == "false"
  {
    if t == "true" then Some(true)
    else if t == "false" then Some(false)
    else None
  }

  lemma BoolTextRoundTrip(b: bool)
    ensures ReadBool(BoolText(b)) == Some(b)
  {
  }

  /** `parts` joined with `sep` between neighbours, as `parts.join(sep)` does. */
  function Join(parts: seq<string>, sep: char): string
  {
    if |parts| == 0 then ""
    else if |parts| == 1 then parts[0]
    else parts[0] + [sep] + Join(parts[1..], sep)
  }

  /** The pieces of `s` between occurrences of `sep`, as `s.split(sep)` does:
      there is always at least one piece, and no piece contains `sep`. */
  function Split(s: string, sep: char): (pieces: seq<string>)
    ensures |pieces| > 0
    ensures forall i :: 0 <= i < |pieces| ==> sep !in pieces[i]
    decreases |s|
  {
    if |s| == 0 then [""]
    else
      var rest := Split(s[1..], sep);
      if s[0] == sep then [""] + rest
      else [[s[0]] + rest[0]] + rest[1..]
  }

  /** Splitting a piece followed by the separator peels off exactly that piece. */
  lemma {:induction false} SplitAfterPiece(p: string, sep: char, t: string)
    requires sep !in p
    ensures Split(p + [sep] + t, sep) == [p] + Split(t, sep)
    decreases |p|
  {
    if |p| == 0 {
      assert p + [sep] + t == [sep] + t;
      assert ([sep] + t)[1..] == t;
    } else {
      var s := p + [sep] + t;
      assert s[0] == p[0];
      assert s[1..] == p[1..] + [sep] + t;
      SplitAfterPiece(p[1..], sep, t);
      assert [p[0]] + p[1..] == p;
    }
  }

  /** A string without the separator splits into itself alone. */
  lemma {:induction false} SplitWithoutSeparator(p: string, sep: char)
    requires sep !in p
    ensures Split(p, sep) == [p]
    decreases |p|
  {
    if |p| > 0 {
      SplitWithoutSeparator(p[1..], sep);
      assert [p[0]] + p[1..] == p;
    }
  }

  /** Splitting undoes joining, provided no part contains the separator. */
  lemma {:induction false} JoinSplitRoundTrip(parts: seq<string>, sep: char)
    requires |parts| > 0
    requires forall i :: 0 <= i < |parts| ==> sep !in parts[i]
    ensures Split(Join(parts, sep), sep) == parts
    decreases |parts|
  {
    if |parts| == 1 {
      SplitWithoutSeparator(parts[0], sep);
    } else {
      JoinSplitRoundTrip(parts[1..], sep);
      SplitAfterPiece(parts[0], sep, Join(parts[1..], sep));
      assert [parts[0]] + parts[1..] == parts;
    }
  }

  /** Joining undoes splitting, for every string. */
  lemma {:induction false} SplitJoinRoundTrip(s: string, sep: char)
    ensures Join(Split(s, sep), sep) == s
    decreases |s|
  {
    if |s| > 0 {
      var rest := Split(s[1..], sep);
      SplitJoinRoundTrip(s[1..], sep);
      if s[0] == sep {
        assert ([""] + rest)[1..] == rest;
        assert [s[0]] + s[1..] == s;
      } else {
        var pieces := [[s[0]] + rest[0]] + rest[1..];
        assert pieces[1..] == rest[1..];
        if |rest| == 1 {
          assert [s[0]] + s[1..] == s;
        } else {
          assert Join(rest, sep) == rest[0] + [sep] + Join(rest[1..], sep);
          assert [s[0]] + s[1..] == s;
        }
      }
    }
  }

  /** ASCII lower-casing of one character. */
  function LowerChar(c: char): char
  {
    if 'A' <= c <= 'Z' then (c as int + 32) as char else c
  }

  /** `s.toLowerCase()` restricted to ASCII: upper-case letters become
      lower-case, every other character is kept, and the length is unchanged. */
  function ToLower(s: string): (r: string)
    ensures |r| == |s|
    ensures forall i :: 0 <= i < |s| ==> !('A' <= r[i] <= 'Z')
    ensures forall i :: 0 <= i < |s| && !('A' <= s[i] <= 'Z') ==> r[i] == s[i]
    ensures forall i :: 0 <= i < |s| && 'A' <= s[i] <= 'Z' ==> r[i] as int == s[i] as int + 32
  {
    if |s| == 0 then "" else [LowerChar(s[0])] + ToLower(s[1..])
  }
}
