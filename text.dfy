/** The few JavaScript string operations the reader relies on, over strings
    as sequences of characters: `startsWith`, substring search (plain and
    ASCII case-insensitive, as a `/…/i` regular expression over a literal
    pattern does it), `split` and `join` on a one-character separator, and
    `trim`. */
module Text {

  predicate StartsWith(s: string, prefix: string)
  {
    |prefix| <= |s| && s[..|prefix|] == prefix
  }

  /** `s.includes(sub)`: some position of `s` starts with `sub`. */
  predicate Contains(s: string, sub: string)
    decreases |s|
  {
    StartsWith(s, sub) || (|s| > 0 && Contains(s[1..], sub))
  }

  lemma {:induction false} ContainsAt(s: string, sub: string, i: nat)
    requires i + |sub| <= |s| && s[i..i + |sub|] == sub
    ensures Contains(s, sub)
    decreases i
  {
    if i > 0 {
      assert s[1..][i - 1..i - 1 + |sub|] == sub;
      ContainsAt(s[1..], sub, i - 1);
    }
  }

  /** A substring of a part is a substring of the whole. */
  lemma {:induction false} ContainsInConcat(a: string, b: string, sub: string)
    requires Contains(b, sub)
    ensures Contains(a + b, sub)
    decreases |a| + |b|
  {
    if |a| > 0 {
      assert (a + b)[1..] == a[1..] + b;
      ContainsInConcat(a[1..], b, sub);
    } else {
      assert a + b == b;
    }
  }

  lemma {:induction false} ContainsInPrefix(a: string, b: string, sub: string)
    requires Contains(a, sub)
    ensures Contains(a + b, sub)
    decreases |a|
  {
    if StartsWith(a, sub) {
      assert (a + b)[..|sub|] == a[..|sub|];
    } else {
      assert (a + b)[1..] == a[1..] + b;
      ContainsInPrefix(a[1..], b, sub);
    }
  }

  /** ASCII upper case to lower case; every other character is kept. For the
      patterns used here (`</head>`, `og:image`, `og:video`) this is exactly
      the case folding of a JavaScript `i`-flagged expression without the
      `u` flag, which never maps a non-ASCII character onto an ASCII one. */
  function LowerChar(c: char): char
  {
    if 'A' <= c <= 'Z' then (c as int + 32) as char else c
  }

  function Lower(s: string): (r: string)
    ensures |r| == |s|
    ensures forall i :: 0 <= i < |s| ==> r[i] == LowerChar(s[i])
  {
    seq(|s|, i requires 0 <= i < |s| => LowerChar(s[i]))
  }

  /** `/pattern/i.test(s)` for a literal pattern. */
  predicate ContainsIgnoringCase(s: string, pattern: string)
  {
    Contains(Lower(s), Lower(pattern))
  }

  lemma LowerConcat(a: string, b: string)
    ensures Lower(a + b) == Lower(a) + Lower(b)
  {
  }

  lemma ContainsIgnoringCaseInConcat(a: string, b: string, pattern: string)
    requires ContainsIgnoringCase(a, pattern) || ContainsIgnoringCase(b, pattern)
    ensures ContainsIgnoringCase(a + b, pattern)
  {
    LowerConcat(a, b);
    if ContainsIgnoringCase(a, pattern) {
      ContainsInPrefix(Lower(a), Lower(b), Lower(pattern));
    } else {
      ContainsInConcat(Lower(a), Lower(b), Lower(pattern));
    }
  }

  /** `s.split(sep)` for a one-character separator: never empty, and the
      empty string splits into one empty part. */
  function Split(s: string, sep: char): (parts: seq<string>)
    ensures |parts| >= 1
    decreases |s|
  {
    if |s| == 0 then [""]
    else
      var rest := Split(s[1..], sep);
      if s[0] == sep then [""] + rest
      else [[s[0]] + rest[0]] + rest[1..]
  }

  /** `parts.join(sep)`. */
  function Join(parts: seq<string>, sep: char): string
  {
    if |parts| == 0 then ""
    else if |parts| == 1 then parts[0]
    else parts[0] + [sep] + Join(parts[1..], sep)
  }

  /** Splitting and joining on the same separator gives back the string, and
      no part contains the separator. */
  lemma {:induction false} JoinSplit(s: string, sep: char)
    ensures Join(Split(s, sep), sep) == s
    ensures forall p :: p in Split(s, sep) ==> sep !in p
    decreases |s|
  {
    if |s| > 0 {
      JoinSplit(s[1..], sep);
      var rest := Split(s[1..], sep);
      if s[0] == sep {
        assert Split(s, sep) == [""] + rest;
        assert s == [] + [sep] + s[1..];
      } else {
        var parts := Split(s, sep);
        assert parts == [[s[0]] + rest[0]] + rest[1..];
        if |rest| == 1 {
          assert s == [s[0]] + s[1..];
        } else {
          assert Join(parts, sep) == [s[0]] + rest[0] + [sep] + Join(rest[1..], sep);
          assert Join(rest, sep) == rest[0] + [sep] + Join(rest[1..], sep);
          assert s == [s[0]] + s[1..];
        }
        forall p | p in parts ensures sep !in p {
          if p == parts[0] {
            assert p == [s[0]] + rest[0];
          } else {
            assert p in rest[1..];
          }
        }
      }
    }
  }

  /** JavaScript's white space and line terminators, the characters
      `String.prototype.trim` removes. */
  predicate IsJsWhiteSpace(c: char)
  {
    c == '\t' || c == '\n' || c == '\U{B}' || c == '\U{C}' || c == '\r' || c == ' '
    || c == '\U{A0}' || c == '\U{1680}' || ('\U{2000}' <= c <= '\U{200A}')
    || c == '\U{2028}' || c == '\U{2029}' || c == '\U{202F}' || c == '\U{205F}'
    || c == '\U{3000}' || c == '\U{FEFF}'
  }

  function TrimStart(s: string): (r: string)
    ensures |r| <= |s| && r == s[|s| - |r|..]
    ensures r == [] || !IsJsWhiteSpace(r[0])
    ensures forall i :: 0 <= i < |s| - |r| ==> IsJsWhiteSpace(s[i])
  {
    if |s| > 0 && IsJsWhiteSpace(s[0]) then TrimStart(s[1..]) else s
  }

  function TrimEnd(s: string): (r: string)
    ensures |r| <= |s| && r == s[..|r|]
    ensures r == [] || !IsJsWhiteSpace(r[|r| - 1])
    ensures forall i :: |r| <= i < |s| ==> IsJsWhiteSpace(s[i])
  {
    if |s| > 0 && IsJsWhiteSpace(s[|s| - 1]) then TrimEnd(s[..|s| - 1]) else s
  }

  /** `s.trim()`. */
  function Trim(s: string): string
  {
    TrimEnd(TrimStart(s))
  }

  /** The trimmed string is a contiguous piece of `s` that neither starts nor
      ends with white space, and everything cut off is white space; it is
      empty exactly when `s` is all white space. */
  lemma TrimSpec(s: string)
    ensures var r := Trim(s);
      && (r == [] || (!IsJsWhiteSpace(r[0]) && !IsJsWhiteSpace(r[|r| - 1])))
      && r == s[|s| - |TrimStart(s)|..][..|r|]
    ensures Trim(s) == [] <==> forall i :: 0 <= i < |s| ==> IsJsWhiteSpace(s[i])
  {
    var t := TrimStart(s);
    var r := TrimEnd(t);
    if r != [] {
      assert r[0] == t[0];
    } else if t != [] {
      assert false;
    }
    if (forall i :: 0 <= i < |s| ==> IsJsWhiteSpace(s[i])) && t != [] {
      assert false;
    }
  }
}
