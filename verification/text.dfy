/** The handful of Python `str` operations the scripts rely on: whitespace
    stripping, splitting and joining on a separator, universal-newline
    translation when a file is read in text mode, code-point ordering of
    strings, decimal formatting and prefix slicing. */
module Text {
  import opened Wrappers

  /** Python's `str.isspace` for a single code point. */
  predicate IsSpace(c: char) {
    || c == ' '
    || ('\t' <= c <= '\r')
    || ('\U{1C}' <= c <= '\U{1F}')
    || c == '\U{85}' || c == '\U{A0}' || c == '\U{1680}'
    || ('\U{2000}' <= c <= '\U{200A}')
    || c == '\U{2028}' || c == '\U{2029}' || c == '\U{202F}' || c == '\U{205F}' || c == '\U{3000}'
  }

  predicate AllSpace(s: string) {
    forall i :: 0 <= i < |s| ==> IsSpace(s[i])
  }

  /** Neither the first nor the last character is whitespace. */
  predicate IsStripped(s: string) {
    s == [] || (!IsSpace(s[0]) && !IsSpace(s[|s| - 1]))
  }

  /** Length of the whitespace run at the front of `s`. */
  function LeadingSpace(s: string): (n: nat)
    ensures n <= |s|
    ensures AllSpace(s[..n])
    ensures n < |s| ==> !IsSpace(s[n])
  {
    if |s| > 0 && IsSpace(s[0]) then 1 + LeadingSpace(s[1..]) else 0
  }

  /** Length of the whitespace run at the back of `s`. */
  function TrailingSpace(s: string): (n: nat)
    ensures n <= |s|
    ensures AllSpace(s[|s| - n..])
    ensures n < |s| ==> !IsSpace(s[|s| - n - 1])
  {
    if |s| > 0 && IsSpace(s[|s| - 1]) then 1 + TrailingSpace(s[..|s| - 1]) else 0
  }

  /** Python's `str.strip()`: the text left once whitespace is removed from
      both ends. */
  function Strip(s: string): (r: string)
    ensures IsStripped(r)
    ensures r == [] <==> AllSpace(s)
    ensures LeadingSpace(s) + |r| <= |s|
    ensures r == s[LeadingSpace(s)..LeadingSpace(s) + |r|]
    ensures AllSpace(s[LeadingSpace(s) + |r|..])
  {
    var i := LeadingSpace(s);
    var rest := s[i..];
    var r := rest[..|rest| - TrailingSpace(rest)];
    StripEnds(s);
    StripEmpty(s);
    StripSlice(s, i, TrailingSpace(rest));
    r
  }

  /** Once `i` leading and `t` trailing characters of `s` are set aside,
      the middle is a slice of `s` and what follows it is whitespace. */
  lemma StripSlice(s: string, i: nat, t: nat)
    requires i <= |s| && t <= |s| - i
    requires AllSpace(s[i..][|s| - i - t..])
    ensures s[i..][..|s| - i - t] == s[i..|s| - t]
    ensures AllSpace(s[|s| - t..])
  {
    assert s[i..][|s| - i - t..] == s[|s| - t..];
  }

  /** The text between the whitespace runs starts and ends with
      non-whitespace. */
  lemma StripEnds(s: string)
    ensures var rest := s[LeadingSpace(s)..];
            IsStripped(rest[..|rest| - TrailingSpace(rest)])
  {
    var i := LeadingSpace(s);
    var rest := s[i..];
    assert |rest| > 0 ==> rest[0] == s[i];
    MiddleStripped(rest, TrailingSpace(rest));
  }

  lemma MiddleStripped(rest: string, t: nat)
    requires t <= |rest|
    requires |rest| > 0 ==> !IsSpace(rest[0])
    requires t < |rest| ==> !IsSpace(rest[|rest| - t - 1])
    ensures IsStripped(rest[..|rest| - t])
  {
  }

  /** Nothing is left between the whitespace runs exactly when the text is
      all whitespace. */
  lemma StripEmpty(s: string)
    ensures var rest := s[LeadingSpace(s)..];
            rest[..|rest| - TrailingSpace(rest)] == [] <==> AllSpace(s)
  {
    var i := LeadingSpace(s);
    var rest := s[i..];
    var t := TrailingSpace(rest);
    if AllSpace(s) {
      assert i == |s|;
    }
    if t == |rest| {
      assert rest[|rest| - t..] == rest;
      assert i == |s|;
      assert s == s[..i];
    }
  }

  /** Stripping only removes characters: a character absent from `s` is
      absent from its stripped form. */
  lemma StripKeepsOut(s: string, c: char)
    requires c !in s
    ensures c !in Strip(s)
  {
    var r, i := Strip(s), LeadingSpace(s);
    forall k | 0 <= k < |r| ensures r[k] != c {
      assert r[k] == s[i + k];
    }
  }

  lemma StripOfStripped(s: string)
    requires IsStripped(s)
    ensures Strip(s) == s
  {
    if s != [] {
      assert LeadingSpace(s) == 0;
      assert TrailingSpace(s) == 0;
    }
  }

  /** Stripping twice is stripping once. */
  lemma StripIdempotent(s: string)
    ensures Strip(Strip(s)) == Strip(s)
  {
    StripOfStripped(Strip(s));
  }

  predicate StartsWith(s: string, prefix: string) {
    |prefix| <= |s| && s[..|prefix|] == prefix
  }

  predicate EndsWith(s: string, suffix: string) {
    |suffix| <= |s| && s[|s| - |suffix|..] == suffix
  }

  function Min(x: int, y: int): int {
    if x < y then x else y
  }

  function Max(x: int, y: int): int {
    if x < y then y else x
  }

  lemma EndsWithSuffix(a: string, b: string)
    ensures EndsWith(a + b, b)
  {
    assert (a + b)[|a|..] == b;
  }

  /** A text starts with its first part and ends with its last. */
  lemma Affixes(p: string, m: string, q: string)
    ensures StartsWith(p + m + q, p) && EndsWith(p + m + q, q)
  {
    assert (p + m + q)[..|p|] == p;
    assert (p + m + q)[|p + m|..] == q;
  }

  /** Position of the first occurrence of `c` in `s` (Python's `str.find`,
      with `None` for -1). */
  function IndexOf(s: string, c: char): (r: Option<nat>)
    ensures r.None? <==> c !in s
    ensures r.Some? ==> r.value < |s| && s[r.value] == c && c !in s[..r.value]
  {
    if |s| == 0 then None
    else if s[0] == c then Some(0)
    else
      match IndexOf(s[1..], c)
      case None => None
      case Some(i) =>
        assert s[..i + 1] == [s[0]] + s[1..][..i];
        Some(i + 1)
  }

  lemma IndexOfFirst(a: string, c: char, b: string)
    requires c !in a
    ensures IndexOf(a + [c] + b, c) == Some(|a|)
  {
    var s := a + [c] + b;
    assert s[|a|] == c;
    var r := IndexOf(s, c);
    assert a == s[..|a|];
  }

  /** Python's `s.split(sep)` for a one-character separator: always at least
      one part, and no part contains the separator. */
  function Split(s: string, sep: char): (parts: seq<string>)
    ensures |parts| >= 1
    ensures forall k :: 0 <= k < |parts| ==> sep !in parts[k]
    decreases |s|
  {
    match IndexOf(s, sep)
    case None => [s]
    case Some(i) => [s[..i]] + Split(s[i + 1..], sep)
  }

  /** Every character of every part comes from the split text. */
  lemma {:induction false} SplitPartsFromText(s: string, sep: char)
    ensures forall k, j :: 0 <= k < |Split(s, sep)| && 0 <= j < |Split(s, sep)[k]| ==> Split(s, sep)[k][j] in s
    decreases |s|
  {
    match IndexOf(s, sep)
    case None =>
    case Some(i) =>
      SplitPartsFromText(s[i + 1..], sep);
      var parts := Split(s, sep);
      forall k, j | 0 <= k < |parts| && 0 <= j < |parts[k]|
        ensures parts[k][j] in s
      {
        if k > 0 {
          assert parts[k] == Split(s[i + 1..], sep)[k - 1];
          assert parts[k][j] in s[i + 1..];
        } else {
          assert parts[k][j] == s[j];
        }
      }
  }

  /** Python's `sep.join(parts)`. */
  function Join(parts: seq<string>, sep: string): string
  {
    if |parts| == 0 then ""
    else if |parts| == 1 then parts[0]
    else parts[0] + sep + Join(parts[1..], sep)
  }

  /** Joining the parts of a split gives back the original text. */
  lemma {:induction false} JoinSplit(s: string, sep: char)
    ensures Join(Split(s, sep), [sep]) == s
    decreases |s|
  {
    var r := IndexOf(s, sep);
    if r.Some? {
      var i := r.value;
      var tail := s[i + 1..];
      var parts := Split(tail, sep);
      assert Split(s, sep) == [s[..i]] + parts;
      assert Join(parts, [sep]) == tail by {
        JoinSplit(tail, sep);
      }
      assert Join([s[..i]] + parts, [sep]) == s[..i] + [sep] + Join(parts, [sep]) by {
        JoinCons(s[..i], parts, [sep]);
      }
      assert s == s[..i] + [sep] + tail by {
        PartAround(s, i);
      }
    }
  }

  /** A text is what comes before position `i`, the character there, and
      what follows. */
  lemma PartAround(s: string, i: nat)
    requires i < |s|
    ensures s == s[..i] + [s[i]] + s[i + 1..]
  {
  }

  /** Putting one more part in front adds the part and one separator. */
  lemma JoinCons(head: string, parts: seq<string>, sep: string)
    requires |parts| >= 1
    ensures Join([head] + parts, sep) == head + sep + Join(parts, sep)
  {
    assert ([head] + parts)[1..] == parts;
  }

  /** Splitting a join of separator-free parts gives back the parts. */
  lemma {:induction false} SplitJoin(parts: seq<string>, sep: char)
    requires |parts| >= 1
    requires forall k :: 0 <= k < |parts| ==> sep !in parts[k]
    ensures Split(Join(parts, [sep]), sep) == parts
  {
    if |parts| > 1 {
      var rest := Join(parts[1..], [sep]);
      var s := parts[0] + [sep] + rest;
      IndexOfFirst(parts[0], sep, rest);
      assert s[..|parts[0]|] == parts[0];
      assert s[|parts[0]| + 1..] == rest;
      SplitJoin(parts[1..], sep);
    }
  }

  /** Appending one more part adds one separator and the part. */
  lemma {:induction false} JoinSnoc(parts: seq<string>, sep: string, last: string)
    requires |parts| >= 1
    ensures Join(parts + [last], sep) == Join(parts, sep) + sep + last
  {
    if |parts| > 1 {
      assert (parts + [last])[1..] == parts[1..] + [last];
      JoinSnoc(parts[1..], sep, last);
    }
  }

  /** Lines written one after another, each ended by a line break, split
      back into the lines and the empty text after the last break. */
  lemma SplitTerminated(lines: seq<string>)
    requires |lines| >= 1
    requires forall k :: 0 <= k < |lines| ==> '\n' !in lines[k]
    ensures Split(Join(lines, "\n") + "\n", '\n') == lines + [""]
  {
    var ls := lines + [""];
    assert forall k :: 0 <= k < |ls| ==> '\n' !in ls[k] by {
      forall k | 0 <= k < |ls| ensures '\n' !in ls[k] {
        if k < |lines| {
          assert ls[k] == lines[k];
        }
      }
    }
    JoinSnoc(lines, "\n", "");
    SplitJoin(ls, '\n');
    var text := Join(lines, "\n") + "\n";
    assert ['\n'] == "\n";
    assert Join(ls, "\n") == text + "";
    assert text + "" == text;
  }

  /** The first separator of a text is still the first once more text
      follows it. */
  lemma {:induction false} IndexOfExtend(x: string, c: char, z: string)
    requires IndexOf(x, c).Some?
    ensures IndexOf(x + z, c) == IndexOf(x, c)
  {
    if x[0] != c {
      assert (x + z)[0] == x[0];
      assert (x + z)[1..] == x[1..] + z;
      IndexOfExtend(x[1..], c, z);
    }
  }

  /** A text without the separator splits into itself. */
  lemma SplitOfPlain(s: string, sep: char)
    requires sep !in s
    ensures Split(s, sep) == [s]
  {
  }

  /** One step of `Split` at the first separator. */
  lemma SplitStep(s: string, sep: char, i: nat)
    requires IndexOf(s, sep) == Some(i)
    ensures i < |s| && Split(s, sep) == [s[..i]] + Split(s[i + 1..], sep)
  {
  }

  /** Splitting two texts joined by the separator splits each of them. */
  lemma {:induction false} SplitConcat(x: string, y: string, sep: char)
    ensures Split(x + [sep] + y, sep) == Split(x, sep) + Split(y, sep)
    decreases |x|
  {
    match IndexOf(x, sep)
    case None =>
      SplitConcatPlain(x, y, sep);
    case Some(i) =>
      SplitConcatStep(x, y, sep, i);
      SplitConcat(x[i + 1..], y, sep);
      Regroup([x[..i]], Split(x + [sep] + y, sep), Split(x[i + 1..] + [sep] + y, sep),
              Split(x, sep), Split(x[i + 1..], sep), Split(y, sep));
  }

  /** Sequence bookkeeping for `SplitConcat`, kept apart from `Split`. */
  lemma Regroup<T>(h: seq<T>, w: seq<T>, m: seq<T>, x: seq<T>, a: seq<T>, b: seq<T>)
    requires w == h + m && m == a + b && x == h + a
    ensures w == x + b
  {
  }

  lemma SplitConcatPlain(x: string, y: string, sep: char)
    requires sep !in x
    ensures Split(x + [sep] + y, sep) == Split(x, sep) + Split(y, sep)
  {
    var w := x + [sep] + y;
    IndexOfFirst(x, sep, y);
    SplitStep(w, sep, |x|);
    assert w[..|x|] == x && w[|x| + 1..] == y;
    SplitOfPlain(x, sep);
  }

  /** Both splits begin with the same part before the first separator of `x`. */
  lemma SplitConcatStep(x: string, y: string, sep: char, i: nat)
    requires IndexOf(x, sep) == Some(i)
    ensures i < |x|
    ensures Split(x + [sep] + y, sep) == [x[..i]] + Split(x[i + 1..] + [sep] + y, sep)
    ensures Split(x, sep) == [x[..i]] + Split(x[i + 1..], sep)
  {
    var w := x + [sep] + y;
    assert w == x + ([sep] + y);
    IndexOfExtend(x, sep, [sep] + y);
    SplitStep(w, sep, i);
    SplitStep(x, sep, i);
    assert w[..i] == x[..i];
    assert w[i + 1..] == x[i + 1..] + [sep] + y;
  }

  /** The parts of each text in turn. */
  function SplitEach(items: seq<string>, sep: char): seq<string>
  {
    if |items| == 0 then [] else Split(items[0], sep) + SplitEach(items[1..], sep)
  }

  lemma {:induction false} SplitEachConcat(a: seq<string>, b: seq<string>, sep: char)
    ensures SplitEach(a + b, sep) == SplitEach(a, sep) + SplitEach(b, sep)
  {
    if |a| == 0 {
      assert a + b == b;
    } else {
      assert (a + b)[0] == a[0];
      assert (a + b)[1..] == a[1..] + b;
      SplitEachConcat(a[1..], b, sep);
    }
  }

  /** The parts of a list with one text singled out in the middle. */
  lemma SplitEachAround(front: seq<string>, c: string, back: seq<string>, sep: char)
    ensures SplitEach(front + ([c] + back), sep) == SplitEach(front, sep) + (Split(c, sep) + SplitEach(back, sep))
  {
    SplitEachConcat(front, [c] + back, sep);
    SplitEachConcat([c], back, sep);
    assert SplitEach([c], sep) == Split(c, sep) + SplitEach([], sep);
  }

  /** Texts without the separator are their own parts. */
  lemma {:induction false} SplitEachPlain(items: seq<string>, sep: char)
    requires forall k :: 0 <= k < |items| ==> sep !in items[k]
    ensures SplitEach(items, sep) == items
  {
    if |items| > 0 {
      SplitOfPlain(items[0], sep);
      SplitEachPlain(items[1..], sep);
    }
  }

  /** Splitting a join gives the parts of each joined text, in order, even
      when the texts themselves hold the separator. */
  lemma {:induction false} SplitJoinEach(items: seq<string>, sep: char)
    requires |items| >= 1
    ensures Split(Join(items, [sep]), sep) == SplitEach(items, sep)
  {
    if |items| > 1 {
      SplitConcat(items[0], Join(items[1..], [sep]), sep);
      SplitJoinEach(items[1..], sep);
    }
  }

  /** Python's `s.replace(a, b)` for one-character `a` and `b`. */
  function ReplaceChar(s: string, a: char, b: char): (r: string)
    ensures |r| == |s|
    ensures forall k :: 0 <= k < |s| ==> r[k] == (if s[k] == a then b else s[k])
    ensures a != b ==> a !in r
  {
    seq(|s|, k requires 0 <= k < |s| => if s[k] == a then b else s[k])
  }

  /** The text of a file opened in Python's text mode: each "\r\n" and each
      lone "\r" is read as "\n". */
  function UniversalNewlines(s: string): (r: string)
    ensures '\r' !in r
    ensures '\r' !in s ==> r == s
  {
    if |s| == 0 then ""
    else if s[0] == '\r' then
      if |s| > 1 && s[1] == '\n' then "\n" + UniversalNewlines(s[2..])
      else "\n" + UniversalNewlines(s[1..])
    else [s[0]] + UniversalNewlines(s[1..])
  }

  /** The lines a text-mode read of `text` yields, without their newline. */
  function Lines(text: string): (ls: seq<string>)
    ensures |ls| >= 1
    ensures forall k :: 0 <= k < |ls| ==> '\n' !in ls[k] && '\r' !in ls[k]
  {
    SplitPartsFromText(UniversalNewlines(text), '\n');
    Split(UniversalNewlines(text), '\n')
  }

  /** Python's `a < b` on strings: code-point lexicographic order. */
  predicate LexLess(a: string, b: string)
    decreases |a|
  {
    if |a| == 0 then |b| > 0
    else |b| > 0 && (a[0] < b[0] || (a[0] == b[0] && LexLess(a[1..], b[1..])))
  }

  /** Python's `a <= b` on strings. */
  predicate LexLe(a: string, b: string) {
    a == b || LexLess(a, b)
  }

  lemma {:induction false} LexLessIrreflexive(a: string)
    ensures !LexLess(a, a)
    decreases |a|
  {
    if |a| > 0 {
      LexLessIrreflexive(a[1..]);
    }
  }

  lemma {:induction false} LexLessTransitive(a: string, b: string, c: string)
    requires LexLess(a, b) && LexLess(b, c)
    ensures LexLess(a, c)
    decreases |a|
  {
    if |a| > 0 && a[0] == b[0] && b[0] == c[0] {
      LexLessTransitive(a[1..], b[1..], c[1..]);
    }
  }

  /** Any two strings are ordered one way or the other, or are equal. */
  lemma {:induction false} LexTotal(a: string, b: string)
    ensures LexLess(a, b) || a == b || LexLess(b, a)
    decreases |a|
  {
    if |a| > 0 && |b| > 0 && a[0] == b[0] {
      LexTotal(a[1..], b[1..]);
      if a[1..] == b[1..] {
        assert a == [a[0]] + a[1..] && b == [b[0]] + b[1..];
      }
    }
  }

  lemma LexLeAntisymmetric(a: string, b: string)
    requires LexLe(a, b) && LexLe(b, a)
    ensures a == b
  {
    if a != b {
      LexLessTransitive(a, b, a);
      LexLessIrreflexive(a);
    }
  }

  lemma LexLeTransitive(a: string, b: string, c: string)
    requires LexLe(a, b) && LexLe(b, c)
    ensures LexLe(a, c)
  {
    if a != b && b != c {
      LexLessTransitive(a, b, c);
    }
  }

  predicate IsDigits(s: string) {
    forall i :: 0 <= i < |s| ==> '0' <= s[i] <= '9'
  }

  function DigitChar(d: nat): (c: char)
    requires d < 10
    ensures '0' <= c <= '9'
    ensures c as int - '0' as int == d
  {
    (d + '0' as int) as char
  }

  /** The number a string of decimal digits denotes (Python's `int(s)`). */
  function DigitsValue(s: string): nat
    requires IsDigits(s)
  {
    if |s| == 0 then 0 else DigitsValue(s[..|s| - 1]) * 10 + (s[|s| - 1] as int - '0' as int)
  }

  /** Python's `str(n)` for a non-negative integer. */
  function Decimal(n: nat): (r: string)
    ensures |r| >= 1 && IsDigits(r)
  {
    if n < 10 then [DigitChar(n)] else Decimal(n / 10) + [DigitChar(n % 10)]
  }

  /** Reading the decimal text of `n` back gives `n`. */
  lemma {:induction false} DecimalRoundTrip(n: nat)
    ensures DigitsValue(Decimal(n)) == n
  {
    if n >= 10 {
      var p := Decimal(n / 10);
      var r := Decimal(n);
      assert r == p + [DigitChar(n % 10)];
      assert r[..|r| - 1] == p;
      DecimalRoundTrip(n / 10);
    }
  }

  /** Python's `"%0<width>d" % n`. */
  function ZeroPad(n: nat, width: nat): (r: string)
    ensures |r| >= width && IsDigits(r)
  {
    var d := Decimal(n);
    if |d| >= width then d else seq(width - |d|, _ => '0') + d
  }

  /** Python's prefix slice `s[:k]`, including its meaning for negative `k`
      (all but the last `-k` items). */
  function PyPrefix<T>(s: seq<T>, k: int): (r: seq<T>)
    ensures r <= s
    ensures k >= 0 ==> |r| == (if k < |s| then k else |s|)
    ensures k < 0 ==> |r| == (if |s| + k > 0 then |s| + k else 0)
  {
    if k >= 0 then (if k < |s| then s[..k] else s)
    else if |s| + k > 0 then s[..|s| + k]
    else []
  }
}
