/** The JavaScript string operations the plugins rely on, on `seq<char>`. */
module Strings {

  /** `parts.join(sep)` of JavaScript, for a non-empty array and a one-character separator. */
  function Join(parts: seq<string>, sep: char): string
    requires |parts| >= 1
    decreases |parts|
  {
    if |parts| == 1 then parts[0] else parts[0] + [sep] + Join(parts[1..], sep)
  }

  /**
   * `s.split(sep)` of JavaScript for a one-character separator: the pieces
   * between consecutive separators, so that joining them again gives back `s`
   * and no piece holds the separator. There is always at least one piece.
   */
  function Split(s: string, sep: char): (parts: seq<string>)
    ensures |parts| >= 1
    ensures forall i :: 0 <= i < |parts| ==> sep !in parts[i]
    ensures Join(parts, sep) == s
    decreases |s|
  {
    if s == [] then [""]
    else
      var rest := Split(s[1..], sep);
      if s[0] == sep then
        assert [sep] + Join(rest, sep) == s;
        [""] + rest
      else
        var parts := [[s[0]] + rest[0]] + rest[1..];
        assert parts[1..] == rest[1..];
        assert Join(parts, sep) == s by {
          if |rest| > 1 {
            assert Join(rest, sep) == rest[0] + [sep] + Join(rest[1..], sep);
          }
        }
        parts
  }

  /** Splitting is the only way to cut `s` into separator-free pieces that join to `s`. */
  lemma {:induction false} SplitUnique(parts: seq<string>, sep: char)
    requires |parts| >= 1
    requires forall i :: 0 <= i < |parts| ==> sep !in parts[i]
    ensures Split(Join(parts, sep), sep) == parts
    decreases |Join(parts, sep)|
  {
    var s := Join(parts, sep);
    if parts[0] == [] {
      if |parts| > 1 {
        assert s == [sep] + Join(parts[1..], sep);
        assert s[1..] == Join(parts[1..], sep);
        SplitUnique(parts[1..], sep);
      }
    } else {
      var p := [parts[0][1..]] + parts[1..];
      assert p[1..] == parts[1..];
      assert Join(p, sep) == s[1..] by {
        if |parts| > 1 {
          assert s == parts[0] + [sep] + Join(parts[1..], sep);
        }
      }
      assert sep !in p[0] by {
        assert forall k :: 0 <= k < |p[0]| ==> p[0][k] == parts[0][k + 1];
      }
      SplitUnique(p, sep);
      assert [s[0]] + p[0] == parts[0];
    }
  }

  /** The last element of a non-empty sequence: JavaScript's `pop()` result. */
  function Last<T>(s: seq<T>): T
    requires |s| >= 1
  {
    s[|s| - 1]
  }

  /** Joining splits off the last piece after the last separator. */
  lemma {:induction false} JoinLast(parts: seq<string>, sep: char)
    requires |parts| >= 2
    ensures Join(parts, sep) == Join(parts[..|parts| - 1], sep) + [sep] + Last(parts)
    decreases |parts|
  {
    if |parts| > 2 {
      JoinLast(parts[1..], sep);
      assert parts[1..][..|parts| - 2] == parts[..|parts| - 1][1..];
    }
  }

  /**
   * `s.lastIndexOf(c)` of JavaScript for a one-character argument: the index of
   * the last occurrence of `c`, or -1 when there is none.
   */
  function LastIndexOf(s: string, c: char): (i: int)
    ensures -1 <= i < |s|
    ensures i >= 0 ==> s[i] == c
    ensures i == -1 ==> c !in s
    ensures forall j :: i < j < |s| ==> s[j] != c
    decreases |s|
  {
    if s == [] then -1
    else if s[|s| - 1] == c then |s| - 1
    else LastIndexOf(s[..|s| - 1], c)
  }

  /** No occurrence of `c` follows its last occurrence. */
  lemma NothingAfterLast(s: string, c: char)
    ensures c !in s[LastIndexOf(s, c) + 1..]
  {
    var i := LastIndexOf(s, c);
    var tail := s[i + 1..];
    forall j | 0 <= j < |tail| ensures tail[j] != c {
      assert tail[j] == s[i + 1 + j];
    }
  }

  /** The last piece of a split is everything after the last separator. */
  lemma SplitLast(s: string, sep: char)
    ensures Last(Split(s, sep)) == s[LastIndexOf(s, sep) + 1..]
  {
    var parts := Split(s, sep);
    if |parts| == 1 {
      assert s == parts[0];
    } else {
      var init := Join(parts[..|parts| - 1], sep);
      JoinLast(parts, sep);
      assert s == init + [sep] + Last(parts);
      var i := LastIndexOf(s, sep);
      assert s[|init|] == sep;
      assert forall j :: |init| < j < |s| ==> s[j] == Last(parts)[j - |init| - 1];
      assert i == |init|;
      assert s[i + 1..] == Last(parts);
    }
  }

  /**
   * The characters JavaScript's `String.prototype.trim` removes: the
   * WhiteSpace and LineTerminator code points of ECMA-262.
   */
  predicate IsWhiteSpace(c: char)
  {
    c == '\t' || c == '\n' || c == '\U{B}' || c == '\U{C}' || c == '\r' || c == ' '
    || c == '\U{A0}' || c == '\U{1680}' || ('\U{2000}' <= c <= '\U{200A}')
    || c == '\U{2028}' || c == '\U{2029}' || c == '\U{202F}' || c == '\U{205F}'
    || c == '\U{3000}' || c == '\U{FEFF}'
  }

  /** `s` consists of white space only (the empty string included). */
  predicate IsBlank(s: string)
  {
    forall i :: 0 <= i < |s| ==> IsWhiteSpace(s[i])
  }

  /** `s.trimStart()`. */
  function TrimStart(s: string): string
    decreases |s|
  {
    if s != [] && IsWhiteSpace(s[0]) then TrimStart(s[1..]) else s
  }

  /** `s.trimEnd()`. */
  function TrimEnd(s: string): string
    decreases |s|
  {
    if s != [] && IsWhiteSpace(s[|s| - 1]) then TrimEnd(s[..|s| - 1]) else s
  }

  /**
   * `s.trim()`. A line is dropped by `filter(line => line.trim())` exactly
   * when it is blank: the trimmed string is falsy only when it is empty.
   */
  function Trim(s: string): (t: string)
    ensures t == "" <==> IsBlank(s)
  {
    TrimStartEmpty(s);
    TrimStartHead(s);
    TrimEndEmpty(TrimStart(s));
    TrimEnd(TrimStart(s))
  }

  lemma {:induction false} TrimStartEmpty(s: string)
    ensures TrimStart(s) == [] <==> IsBlank(s)
    decreases |s|
  {
    if s != [] && IsWhiteSpace(s[0]) {
      TrimStartEmpty(s[1..]);
      assert IsBlank(s) <==> IsBlank(s[1..]) by {
        if IsBlank(s[1..]) {
          forall i | 0 <= i < |s| ensures IsWhiteSpace(s[i]) {
            if i > 0 { assert s[i] == s[1..][i - 1]; }
          }
        }
      }
    }
  }

  lemma {:induction false} TrimEndEmpty(s: string)
    ensures TrimEnd(s) == [] <==> IsBlank(s)
    decreases |s|
  {
    if s != [] && IsWhiteSpace(s[|s| - 1]) {
      TrimEndEmpty(s[..|s| - 1]);
      assert IsBlank(s) <==> IsBlank(s[..|s| - 1]) by {
        if IsBlank(s[..|s| - 1]) {
          forall i | 0 <= i < |s| ensures IsWhiteSpace(s[i]) {
            if i < |s| - 1 { assert s[i] == s[..|s| - 1][i]; }
          }
        }
      }
    }
  }

  /** What `trimStart` leaves is empty or starts with a character that is not white space. */
  lemma {:induction false} TrimStartHead(s: string)
    ensures TrimStart(s) != [] ==> !IsWhiteSpace(TrimStart(s)[0])
    decreases |s|
  {
    if s != [] && IsWhiteSpace(s[0]) {
      TrimStartHead(s[1..]);
    }
  }

  /**
   * `lines.filter(line => line.trim())`: the lines that are not blank, in
   * their original order.
   */
  function NonBlank(lines: seq<string>): (kept: seq<string>)
    ensures |kept| <= |lines|
    ensures forall i :: 0 <= i < |kept| ==> !IsBlank(kept[i]) && kept[i] in lines
    ensures forall x :: x in lines && !IsBlank(x) ==> x in kept
    decreases |lines|
  {
    if lines == [] then []
    else
      var rest := NonBlank(lines[1..]);
      assert forall x :: x in lines ==> x == lines[0] || x in lines[1..];
      if Trim(lines[0]) != "" then [lines[0]] + rest else rest
  }

  /** Filtering distributes over concatenation, so it keeps the lines' order. */
  lemma {:induction false} NonBlankAppend(a: seq<string>, b: seq<string>)
    ensures NonBlank(a + b) == NonBlank(a) + NonBlank(b)
    decreases |a|
  {
    if a != [] {
      assert (a + b)[1..] == a[1..] + b;
      NonBlankAppend(a[1..], b);
    } else {
      assert a + b == b;
    }
  }

  /** A filter keeps every line when none is blank. */
  lemma {:induction false} NonBlankKeepsAll(lines: seq<string>)
    requires forall i :: 0 <= i < |lines| ==> !IsBlank(lines[i])
    ensures NonBlank(lines) == lines
    decreases |lines|
  {
    if lines != [] {
      NonBlankKeepsAll(lines[1..]);
    }
  }

  /** The non-blank lines of a text, in order: `text.split('\n').filter(line => line.trim())`. */
  function NonBlankLines(text: string): (lines: seq<string>)
    ensures forall i :: 0 <= i < |lines| ==> !IsBlank(lines[i]) && '\n' !in lines[i]
  {
    NonBlank(Split(text, '\n'))
  }

  /** `sub` occurs in `s` starting at index `k`. */
  predicate OccursAt(s: string, sub: string, k: nat)
  {
    k + |sub| <= |s| && s[k..k + |sub|] == sub
  }

  /** `s.includes(sub)` of JavaScript: `sub` occurs somewhere in `s`. */
  predicate Includes(s: string, sub: string)
    ensures Includes(s, sub) ==> |sub| <= |s| && forall c :: c in sub ==> c in s
  {
    exists k: nat | k <= |s| :: OccursAt(s, sub, k)
  }

  /** A string lacking one of `sub`'s characters does not include `sub`. */
  lemma MissingCharExcludes(s: string, sub: string, c: char)
    requires c in sub && c !in s
    ensures !Includes(s, sub)
  {
  }
}
