/** Shared vocabulary of the model: an optional value, the handful of Python
    string operations the core relies on, and decimal formatting with
    zero padding (`f"{n:02d}"`, `f"{n:04d}"`) together with its inverse. */
module Common {

  datatype Option<T> = None | Some(value: T)

  // ---------------------------------------------------------------------
  // Characters and simple predicates on strings
  // ---------------------------------------------------------------------

  /** The characters Python's `str.isspace` accepts among the first 256 code points. */
  predicate IsWhitespace(c: char)
  {
    c == ' ' || c == '\t' || c == '\n' || c == '\r' || c == '\U{B}' || c == '\U{C}'
    || c == '\U{1C}' || c == '\U{1D}' || c == '\U{1E}' || c == '\U{1F}'
    || c == '\U{85}' || c == '\U{A0}'
  }

  predicate HasWhitespace(s: string)
  {
    exists i :: 0 <= i < |s| && IsWhitespace(s[i])
  }

  /** `c not in s`. */
  predicate Lacks(s: string, c: char)
  {
    forall i :: 0 <= i < |s| ==> s[i] != c
  }

  predicate StartsWith(s: string, prefix: string)
  {
    |prefix| <= |s| && s[..|prefix|] == prefix
  }

  predicate EndsWith(s: string, suffix: string)
  {
    |suffix| <= |s| && s[|s| - |suffix|..] == suffix
  }

  /** Python's `needle in s` for two strings. */
  predicate Contains(s: string, needle: string)
    decreases |s|
  {
    StartsWith(s, needle) || (|s| > 0 && Contains(s[1..], needle))
  }

  lemma {:induction false} ContainsAt(s: string, needle: string, i: nat)
    requires i + |needle| <= |s| && s[i..i + |needle|] == needle
    ensures Contains(s, needle)
    decreases i
  {
    if i > 0 {
      assert s[1..][i - 1..i - 1 + |needle|] == s[i..i + |needle|];
      ContainsAt(s[1..], needle, i - 1);
    }
  }

  lemma {:induction false} ContainsInPrefix(s: string, t: string, needle: string)
    requires Contains(s, needle)
    ensures Contains(s + t, needle)
    decreases |s|
  {
    if StartsWith(s, needle) {
      assert (s + t)[..|needle|] == s[..|needle|];
    } else {
      assert (s + t)[1..] == s[1..] + t;
      ContainsInPrefix(s[1..], t, needle);
    }
  }

  // ---------------------------------------------------------------------
  // strip, lower, replace
  // ---------------------------------------------------------------------

  function DropLeadingWhitespace(s: string): (r: string)
    ensures |r| <= |s|
    ensures r != [] ==> !IsWhitespace(r[0])
  {
    if s != [] && IsWhitespace(s[0]) then DropLeadingWhitespace(s[1..]) else s
  }

  function DropTrailingWhitespace(s: string): (r: string)
    ensures |r| <= |s| && r == s[..|r|]
    ensures r != [] ==> !IsWhitespace(r[|r| - 1])
  {
    if s != [] && IsWhitespace(s[|s| - 1]) then DropTrailingWhitespace(s[..|s| - 1]) else s
  }

  /** Python's `str.strip()` with no argument. */
  function Strip(s: string): (r: string)
    ensures |r| <= |s|
    ensures r != [] ==> !IsWhitespace(r[0]) && !IsWhitespace(r[|r| - 1])
  {
    DropTrailingWhitespace(DropLeadingWhitespace(s))
  }

  predicate AllWhitespace(s: string)
  {
    forall i :: 0 <= i < |s| ==> IsWhitespace(s[i])
  }

  /** What is dropped in front is whitespace, and the rest of the text is kept. */
  lemma {:induction false} DropLeadingShape(s: string)
    ensures var r := DropLeadingWhitespace(s);
      r == s[|s| - |r|..] && AllWhitespace(s[..|s| - |r|])
    decreases |s|
  {
    if s != [] && IsWhitespace(s[0]) {
      var r := DropLeadingWhitespace(s[1..]);
      DropLeadingShape(s[1..]);
      assert s[1..][..|s| - 1 - |r|] == s[1..|s| - |r|];
    }
  }

  /** What is dropped at the end is whitespace. */
  lemma {:induction false} DropTrailingShape(s: string)
    ensures var r := DropTrailingWhitespace(s);
      AllWhitespace(s[|r|..])
    decreases |s|
  {
    if s != [] && IsWhitespace(s[|s| - 1]) {
      var r := DropTrailingWhitespace(s[..|s| - 1]);
      DropTrailingShape(s[..|s| - 1]);
      assert s[..|s| - 1][|r|..] == s[|r|..|s| - 1];
    }
  }

  /** `Strip(s)` is the slice of `s` between a whitespace prefix and a whitespace
      suffix; with the contract of Strip (no whitespace at either end of a
      non-empty result) this fixes the result for every input. */
  lemma StripIsTrim(s: string)
    ensures var r := Strip(s);
      exists i :: 0 <= i <= |s| - |r| && r == s[i..i + |r|] && AllWhitespace(s[..i]) && AllWhitespace(s[i + |r|..])
  {
    var t := DropLeadingWhitespace(s);
    var r := DropTrailingWhitespace(t);
    DropLeadingShape(s);
    DropTrailingShape(t);
    var i := |s| - |t|;
    assert r == s[i..i + |r|];
    assert s[i + |r|..] == t[|r|..];
  }

  predicate IsUpper(c: char) { 'A' <= c <= 'Z' }

  function LowerChar(c: char): char
  {
    if IsUpper(c) then (c as int - 'A' as int + 'a' as int) as char else c
  }

  function UpperChar(c: char): char
  {
    if 'a' <= c <= 'z' then (c as int - 'a' as int + 'A' as int) as char else c
  }

  /** Python's `str.lower()` on the ASCII letters. */
  function Lower(s: string): (r: string)
    ensures |r| == |s|
    ensures forall i :: 0 <= i < |r| ==> r[i] == LowerChar(s[i]) && !IsUpper(r[i])
  {
    seq(|s|, i requires 0 <= i < |s| => LowerChar(s[i]))
  }

  /** Python's `str.replace(from, to)` for one-character `from` and `to`. */
  function ReplaceChar(s: string, from: char, to: char): (r: string)
    ensures |r| == |s|
    ensures forall i :: 0 <= i < |r| ==> r[i] == (if s[i] == from then to else s[i])
  {
    seq(|s|, i requires 0 <= i < |s| => if s[i] == from then to else s[i])
  }

  // ---------------------------------------------------------------------
  // Decimal digits, zero padding and their inverse
  // ---------------------------------------------------------------------

  predicate IsDigit(c: char) { '0' <= c <= '9' }

  predicate AllDigits(s: string)
  {
    forall i :: 0 <= i < |s| ==> IsDigit(s[i])
  }

  function DigitChar(d: nat): (c: char)
    requires d < 10
    ensures IsDigit(c) && c as int - '0' as int == d
  {
    ('0' as int + d) as char
  }

  /** `str(n)` for a natural number: its decimal digits, most significant first. */
  function NatToDigits(n: nat): (r: string)
    ensures |r| >= 1 && AllDigits(r)
    ensures n >= 10 ==> r[0] != '0'
  {
    if n < 10 then [DigitChar(n)] else NatToDigits(n / 10) + [DigitChar(n % 10)]
  }

  /** The value of a string of decimal digits (Python's `int(s)`). */
  function DigitsValue(s: string): nat
    requires AllDigits(s)
  {
    if s == [] then 0 else 10 * DigitsValue(s[..|s| - 1]) + (s[|s| - 1] as int - '0' as int)
  }

  function Zeros(k: nat): (r: string)
    ensures |r| == k && AllDigits(r)
    ensures forall i :: 0 <= i < k ==> r[i] == '0'
  {
    seq(k, _ => '0')
  }

  /** `f"{n:0{width}d}"`: the decimal digits of `n`, left-padded with zeros to `width`. */
  function PadNat(n: nat, width: nat): (r: string)
    ensures AllDigits(r) && |r| >= width && |r| >= 1
  {
    var digits := NatToDigits(n);
    (if |digits| < width then Zeros(width - |digits|) else []) + digits
  }

  lemma {:induction false} DigitsRoundTrip(n: nat)
    ensures DigitsValue(NatToDigits(n)) == n
    decreases n
  {
    if n >= 10 {
      var d := NatToDigits(n);
      assert d[..|d| - 1] == NatToDigits(n / 10);
      DigitsRoundTrip(n / 10);
    }
  }

  lemma {:induction false} LeadingZerosValue(k: nat, s: string)
    requires AllDigits(s)
    ensures AllDigits(Zeros(k) + s) && DigitsValue(Zeros(k) + s) == DigitsValue(s)
    decreases |s|
  {
    var z := Zeros(k);
    if s == [] {
      assert z + s == z;
      ZerosValue(k);
    } else {
      assert (z + s)[..|z + s| - 1] == z + s[..|s| - 1];
      LeadingZerosValue(k, s[..|s| - 1]);
    }
  }

  lemma {:induction false} ZerosValue(k: nat)
    ensures DigitsValue(Zeros(k)) == 0
    decreases k
  {
    if k > 0 {
      assert Zeros(k)[..k - 1] == Zeros(k - 1);
      ZerosValue(k - 1);
    }
  }

  /** Zero padding loses nothing: the padded text reads back as the number. */
  lemma {:induction false} PadNatRoundTrip(n: nat, width: nat)
    ensures DigitsValue(PadNat(n, width)) == n
  {
    var digits := NatToDigits(n);
    DigitsRoundTrip(n);
    if |digits| < width {
      LeadingZerosValue(width - |digits|, digits);
    } else {
      assert PadNat(n, width) == digits;
    }
  }

  /** Distinct numbers are formatted as distinct padded texts. */
  lemma {:induction false} PadNatInjective(n: nat, m: nat, width: nat)
    requires n != m
    ensures PadNat(n, width) != PadNat(m, width)
  {
    PadNatRoundTrip(n, width);
    PadNatRoundTrip(m, width);
  }

  /** Two strings with the same prefix are equal iff their remainders are. */
  lemma {:induction false} PrefixCancel(p: string, s: string, t: string)
    ensures p + s == p + t <==> s == t
  {
    if p + s == p + t {
      assert s == (p + s)[|p|..];
      assert t == (p + t)[|p|..];
    }
  }

  // ---------------------------------------------------------------------
  // Paths
  // ---------------------------------------------------------------------

  /** `os.path.join(a, b)` for two components. */
  function PathJoin(a: string, b: string): string
  {
    if StartsWith(b, "/") then b
    else if a == [] || EndsWith(a, "/") then a + b
    else a + "/" + b
  }

  /** An absolute `b` replaces `a`; otherwise the result is `a` and `b` with exactly
      one slash between them, none being added when `a` is empty or already ends
      in one. */
  lemma PathJoinShape(a: string, b: string)
    ensures var r := PathJoin(a, b);
      && EndsWith(r, b)
      && (StartsWith(b, "/") ==> r == b)
      && (!StartsWith(b, "/") ==>
            && StartsWith(r, a) && |a| + |b| <= |r| <= |a| + |b| + 1
            && (a != [] ==> r[|r| - |b| - 1] == '/'))
  {
    if !StartsWith(b, "/") {
      if a == [] || EndsWith(a, "/") {
        assert (a + b)[|a| + |b| - |b|..] == b;
      } else {
        assert (a + "/" + b)[|a| + 1..] == b;
      }
    }
  }

  // ---------------------------------------------------------------------
  // Joining and splitting
  // ---------------------------------------------------------------------

  /** `sep.join(parts)`. */
  function Join(parts: seq<string>, sep: string): string
  {
    if parts == [] then ""
    else if |parts| == 1 then parts[0]
    else Join(parts[..|parts| - 1], sep) + sep + parts[|parts| - 1]
  }

  /** Python's `s.split(sep)` for a one-character separator: the pieces between separators,
      empty ones included. */
  function SplitOn(s: string, sep: char): (r: seq<string>)
    ensures |r| >= 1
    ensures forall k, i :: 0 <= k < |r| && 0 <= i < |r[k]| ==> r[k][i] != sep
  {
    if s == [] then [""]
    else
      var rest := SplitOn(s[..|s| - 1], sep);
      if s[|s| - 1] == sep then rest + [""]
      else rest[..|rest| - 1] + [rest[|rest| - 1] + [s[|s| - 1]]]
  }

  /** Splitting and re-joining on the separator gives the text back. */
  lemma {:induction false} SplitOnJoin(s: string, sep: char)
    ensures Join(SplitOn(s, sep), [sep]) == s
    decreases |s|
  {
    if s != [] {
      var init := s[..|s| - 1];
      var rest := SplitOn(init, sep);
      SplitOnJoin(init, sep);
      if s[|s| - 1] == sep {
        assert (rest + [""])[..|rest|] == rest;
        assert s == init + [sep] + "";
      } else {
        var r := rest[..|rest| - 1] + [rest[|rest| - 1] + [s[|s| - 1]]];
        assert r[..|r| - 1] == rest[..|rest| - 1];
        if |rest| == 1 {
          assert Join(rest, [sep]) == rest[0];
        } else {
          assert Join(rest, [sep]) == Join(rest[..|rest| - 1], [sep]) + [sep] + rest[|rest| - 1];
        }
        assert s == init + [s[|s| - 1]];
      }
    }
  }

  /** A text without the separator is a single piece. */
  lemma {:induction false} SplitOnLacking(s: string, sep: char)
    requires Lacks(s, sep)
    ensures SplitOn(s, sep) == [s]
    decreases |s|
  {
    if s != [] {
      var init := s[..|s| - 1];
      assert forall i :: 0 <= i < |init| ==> init[i] == s[i];
      SplitOnLacking(init, sep);
      assert s[|s| - 1] != sep;
      assert init + [s[|s| - 1]] == s;
    }
  }

  /** The first piece is fixed once a separator has been read. */
  lemma {:induction false} SplitOnFirstStable(s: string, t: string, sep: char)
    requires |SplitOn(s, sep)| >= 2
    ensures |SplitOn(s + t, sep)| >= 2 && SplitOn(s + t, sep)[0] == SplitOn(s, sep)[0]
    decreases |t|
  {
    if t == [] {
      assert s + t == s;
    } else {
      var u := s + t;
      assert u[..|u| - 1] == s + t[..|t| - 1];
      SplitOnFirstStable(s, t[..|t| - 1], sep);
    }
  }

  /** `(first + sep + rest).split(sep)[0] == first` for a `first` without the separator. */
  lemma {:induction false} SplitOnFirstPiece(first: string, sep: char, rest: string)
    requires Lacks(first, sep)
    ensures SplitOn(first + [sep] + rest, sep)[0] == first
  {
    SplitOnLacking(first, sep);
    var s := first + [sep];
    assert s[..|s| - 1] == first;
    assert SplitOn(s, sep) == [first, ""];
    SplitOnFirstStable(s, rest, sep);
  }

  /** `sep.join([first] + rest)` starts with `first` and the separator. */
  lemma {:induction false} JoinCons(first: string, rest: seq<string>, sep: string)
    requires rest != []
    ensures Join([first] + rest, sep) == first + sep + Join(rest, sep)
    decreases |rest|
  {
    var parts := [first] + rest;
    if |rest| > 1 {
      assert parts[..|parts| - 1] == [first] + rest[..|rest| - 1];
      JoinCons(first, rest[..|rest| - 1], sep);
    } else {
      assert parts[..|parts| - 1] == [first];
    }
  }

  /** A non-empty run of characters none of which is whitespace. */
  predicate IsWord(w: string)
  {
    w != [] && forall i :: 0 <= i < |w| ==> !IsWhitespace(w[i])
  }

  /** The longest prefix of `s` without whitespace. */
  function FirstWord(s: string): (w: string)
    ensures |w| <= |s| && w == s[..|w|]
    ensures forall i :: 0 <= i < |w| ==> !IsWhitespace(w[i])
    ensures |w| < |s| ==> IsWhitespace(s[|w|])
    ensures s != [] && !IsWhitespace(s[0]) ==> w != []
  {
    if s == [] || IsWhitespace(s[0]) then [] else [s[0]] + FirstWord(s[1..])
  }

  /** Python's `s.split()` with no argument: the maximal runs of non-whitespace, in order. */
  function Words(s: string): (r: seq<string>)
    ensures forall k :: 0 <= k < |r| ==> IsWord(r[k])
    decreases |s|
  {
    var t := DropLeadingWhitespace(s);
    if t == [] then [] else var w := FirstWord(t); [w] + Words(t[|w|..])
  }

  /** `gaps[0] + words[0] + gaps[1] + … + words[n-1] + gaps[n]`. */
  function Interleave(gaps: seq<string>, words: seq<string>): string
    requires |gaps| == |words| + 1
    decreases |words|
  {
    if words == [] then gaps[0] else gaps[0] + words[0] + Interleave(gaps[1..], words[1..])
  }

  /** The whitespace runs around and between the words of `s`. */
  function Gaps(s: string): (g: seq<string>)
    ensures |g| == |Words(s)| + 1
    decreases |s|
  {
    var t := DropLeadingWhitespace(s);
    var lead := s[..|s| - |t|];
    if t == [] then [lead] else var w := FirstWord(t); [lead] + Gaps(t[|w|..])
  }

  /** `s` is its words with whitespace runs between them, a non-empty run between
      two words: the words are exactly the maximal non-whitespace runs of `s`,
      in order. */
  lemma {:induction false} WordsDecompose(s: string)
    ensures var g := Gaps(s);
      && s == Interleave(g, Words(s))
      && (forall k :: 0 <= k < |g| ==> AllWhitespace(g[k]))
      && (forall k :: 0 < k < |g| - 1 ==> g[k] != [])
    decreases |s|
  {
    var t := DropLeadingWhitespace(s);
    DropLeadingShape(s);
    var lead := s[..|s| - |t|];
    assert s == lead + t;
    if t != [] {
      var w := FirstWord(t);
      var rest := t[|w|..];
      assert t == w + rest;
      WordsDecompose(rest);
      if rest != [] {
        LeadingGapNonEmpty(rest);
      }
      assert Gaps(s) == [lead] + Gaps(rest);
      assert Words(s) == [w] + Words(rest);
      DecomposeCons(s, lead, w, rest, Gaps(rest), Words(rest));
    }
  }

  lemma {:induction false} DecomposeCons(s: string, lead: string, w: string, rest: string,
                                         gaps: seq<string>, words: seq<string>)
    requires |gaps| == |words| + 1 && s == lead + (w + rest) && rest == Interleave(gaps, words)
    requires AllWhitespace(lead) && (forall k :: 0 <= k < |gaps| ==> AllWhitespace(gaps[k]))
    requires |gaps| > 1 ==> gaps[0] != []
    requires forall k :: 0 < k < |gaps| - 1 ==> gaps[k] != []
    ensures var g := [lead] + gaps;
      && s == Interleave(g, [w] + words)
      && (forall k :: 0 <= k < |g| ==> AllWhitespace(g[k]))
      && (forall k :: 0 < k < |g| - 1 ==> g[k] != [])
  {
    InterleaveCons(lead, gaps, w, words);
    ConsGaps(lead, gaps);
  }

  lemma {:induction false} InterleaveCons(gap: string, gaps: seq<string>, w: string, words: seq<string>)
    requires |gaps| == |words| + 1
    ensures Interleave([gap] + gaps, [w] + words) == gap + w + Interleave(gaps, words)
  {
    assert ([gap] + gaps)[1..] == gaps && ([w] + words)[1..] == words;
  }

  /** The first gap of a text that starts with whitespace is not empty. */
  lemma {:induction false} LeadingGapNonEmpty(s: string)
    requires s != [] && IsWhitespace(s[0])
    ensures Gaps(s)[0] != []
  {
    assert |DropLeadingWhitespace(s)| < |s|;
  }

  lemma {:induction false} ConsGaps(lead: string, gaps: seq<string>)
    requires AllWhitespace(lead) && gaps != []
    requires forall k :: 0 <= k < |gaps| ==> AllWhitespace(gaps[k])
    requires |gaps| > 1 ==> gaps[0] != []
    requires forall k :: 0 < k < |gaps| - 1 ==> gaps[k] != []
    ensures var g := [lead] + gaps;
      && (forall k :: 0 <= k < |g| ==> AllWhitespace(g[k]))
      && (forall k :: 0 < k < |g| - 1 ==> g[k] != [])
  {
    var g := [lead] + gaps;
    assert forall k :: 1 <= k < |g| ==> g[k] == gaps[k - 1];
  }

  lemma {:induction false} FirstWordOf(w: string, rest: string)
    requires IsWord(w) && (rest == [] || IsWhitespace(rest[0]))
    ensures FirstWord(w + rest) == w
    decreases |w|
  {
    if |w| > 1 {
      assert (w + rest)[1..] == w[1..] + rest;
      FirstWordOf(w[1..], rest);
    } else {
      assert (w + rest)[1..] == rest;
    }
  }

  lemma {:induction false} WordsCons(w: string, rest: string)
    requires IsWord(w) && (rest == [] || IsWhitespace(rest[0]))
    ensures Words(w + rest) == [w] + Words(rest)
  {
    FirstWordOf(w, rest);
    assert (w + rest)[|w|..] == rest;
  }

  lemma {:induction false} WordsAfterSpace(s: string)
    ensures Words(" " + s) == Words(s)
  {
    assert (" " + s)[1..] == s;
  }

  /** Words joined by single spaces split back into the same words. */
  lemma {:induction false} WordsOfJoin(fields: seq<string>)
    requires fields != [] && AllWords(fields)
    ensures Words(Join(fields, " ")) == fields
    decreases |fields|
  {
    if |fields| == 1 {
      WordsOfWord(fields);
    } else {
      var rest := fields[1..];
      assert AllWords(rest) by {
        forall k | 0 <= k < |rest| ensures IsWord(rest[k]) {
          assert rest[k] == fields[k + 1];
        }
      }
      WordsOfJoin(rest);
      WordsOfJoinStep(fields);
    }
  }

  predicate AllWords(fields: seq<string>)
  {
    forall k :: 0 <= k < |fields| ==> IsWord(fields[k])
  }

  lemma {:induction false} WordsOfWord(fields: seq<string>)
    requires |fields| == 1 && IsWord(fields[0])
    ensures Words(Join(fields, " ")) == fields
  {
    var w := fields[0];
    assert fields == [w];
    WordsCons(w, "");
    assert w + "" == w;
    assert Words("") == [];
  }

  lemma {:induction false} WordsOfJoinStep(fields: seq<string>)
    requires |fields| >= 2 && IsWord(fields[0])
    requires Words(Join(fields[1..], " ")) == fields[1..]
    ensures Words(Join(fields, " ")) == fields
  {
    var first := fields[0];
    var rest := fields[1..];
    assert fields == [first] + rest;
    var j := Join(rest, " ");
    JoinCons(first, rest, " ");
    assert first + " " + j == first + (" " + j);
    WordsCons(first, " " + j);
    WordsAfterSpace(j);
    assert [first] + rest == fields;
  }

  /** The concatenation of a list of lists, in order (`"".join` for strings). */
  function Concat<T>(parts: seq<seq<T>>): seq<T>
  {
    if parts == [] then [] else Concat(parts[..|parts| - 1]) + parts[|parts| - 1]
  }

  lemma {:induction false} ConcatSnoc<T>(parts: seq<seq<T>>, last: seq<T>)
    ensures Concat(parts + [last]) == Concat(parts) + last
  {
    assert (parts + [last])[..|parts|] == parts;
  }
}
