/** The Python `str` operations the plugin relies on: `strip()`,
    `split(sep)`, `sep.join(...)`, `endswith(c)` and `fmt % arg`. */
module PyStr {
  import opened Wrappers

  /** `c.isspace()`: the characters `str.strip()` removes under Python 3.3,
      the interpreter Sublime Text 3 embeds. Its Unicode 6.1 tables still
      count U+180E (Mongolian vowel separator) as a space; later versions
      do not. */
  predicate IsSpace(c: char) {
    || ('\t' <= c <= '\r')
    || ('\U{1C}' <= c <= '\U{1F}')
    || c == ' '
    || c == '\U{85}'
    || c == '\U{A0}'
    || c == '\U{1680}'
    || c == '\U{180E}'
    || ('\U{2000}' <= c <= '\U{200A}')
    || c == '\U{2028}'
    || c == '\U{2029}'
    || c == '\U{202F}'
    || c == '\U{205F}'
    || c == '\U{3000}'
  }

  /** `s.lstrip()`: the suffix of `s` left after dropping leading whitespace. */
  function TrimStart(s: string): (r: string)
    ensures |r| <= |s| && r == s[|s| - |r|..]
    ensures forall i :: 0 <= i < |s| - |r| ==> IsSpace(s[i])
    ensures r == [] || !IsSpace(r[0])
  {
    if s != [] && IsSpace(s[0]) then
      var t := TrimStart(s[1..]);
      assert s[1..][|s| - 1 - |t|..] == s[|s| - |t|..];
      t
    else s
  }

  /** `s.rstrip()`: the prefix of `s` left after dropping trailing whitespace. */
  function TrimEnd(s: string): (r: string)
    ensures |r| <= |s| && r == s[..|r|]
    ensures forall i :: |r| <= i < |s| ==> IsSpace(s[i])
    ensures r == [] || !IsSpace(r[|r| - 1])
  {
    if s != [] && IsSpace(s[|s| - 1]) then TrimEnd(s[..|s| - 1]) else s
  }

  /** `s.strip()`: a contiguous slice of `s` with whitespace at neither end,
      everything cut off on either side being whitespace. */
  function Strip(s: string): (r: string)
    ensures |r| <= |s|
    ensures r == [] || (!IsSpace(r[0]) && !IsSpace(r[|r| - 1]))
    ensures forall i :: 0 <= i < |s| - |TrimStart(s)| ==> IsSpace(s[i])
    ensures |r| <= |TrimStart(s)| && r == TrimStart(s)[..|r|]
    ensures forall i :: |r| <= i < |TrimStart(s)| ==> IsSpace(TrimStart(s)[i])
  {
    TrimEnd(TrimStart(s))
  }

  /** A string already stripped is left alone by `strip()`. */
  lemma {:induction false} StripStripped(s: string)
    requires s == [] || (!IsSpace(s[0]) && !IsSpace(s[|s| - 1]))
    ensures Strip(s) == s
  {
  }

  /** `strip()` is idempotent. */
  lemma StripIdempotent(s: string)
    ensures Strip(Strip(s)) == Strip(s)
  {
    StripStripped(Strip(s));
  }

  /** `lstrip()` introduces no character that was not there. */
  lemma {:induction false} TrimStartKeepsOut(s: string, c: char)
    requires c !in s
    ensures c !in TrimStart(s)
  {
    if s != [] && IsSpace(s[0]) {
      assert forall x :: x in s[1..] ==> x in s;
      TrimStartKeepsOut(s[1..], c);
    }
  }

  /** `rstrip()` introduces no character that was not there. */
  lemma {:induction false} TrimEndKeepsOut(s: string, c: char)
    requires c !in s
    ensures c !in TrimEnd(s)
  {
    if s != [] && IsSpace(s[|s| - 1]) {
      assert forall x :: x in s[..|s| - 1] ==> x in s;
      TrimEndKeepsOut(s[..|s| - 1], c);
    }
  }

  /** `strip()` introduces no character that was not there. */
  lemma StripKeepsOut(s: string, c: char)
    requires c !in s
    ensures c !in Strip(s)
  {
    TrimStartKeepsOut(s, c);
    TrimEndKeepsOut(TrimStart(s), c);
  }

  /** `s.endswith(c)` for a one-character suffix. */
  predicate EndsWith(s: string, c: char) {
    s != [] && s[|s| - 1] == c
  }

  /** `sep.join(parts)`. */
  function Join(parts: seq<string>, sep: char): (r: string)
    ensures |parts| == 1 ==> r == parts[0]
  {
    if parts == [] then []
    else if |parts| == 1 then parts[0]
    else parts[0] + [sep] + Join(parts[1..], sep)
  }

  /** `s.split(sep)` with an explicit separator: one piece more than there
      are separators, none of the pieces holding the separator, and joining
      them back gives `s`. */
  function Split(s: string, sep: char): (parts: seq<string>)
    ensures |parts| >= 1
    ensures forall p :: p in parts ==> sep !in p
    ensures Join(parts, sep) == s
  {
    if s == [] then [[]]
    else
      var rest := Split(s[1..], sep);
      if s[0] == sep then
        [[]] + rest
      else
        assert Join(rest, sep) == s[1..];
        SplitJoinHead(s[0], rest, sep);
        [[s[0]] + rest[0]] + rest[1..]
  }

  /** Prepending a character to the first piece prepends it to the joined string. */
  lemma SplitJoinHead(c: char, parts: seq<string>, sep: char)
    requires |parts| >= 1
    ensures Join([[c] + parts[0]] + parts[1..], sep) == [c] + Join(parts, sep)
  {
    var ps := [[c] + parts[0]] + parts[1..];
    assert ps[1..] == parts[1..];
  }

  /** A separator-free prefix followed by the separator splits off as one piece. */
  lemma {:induction false} SplitAfter(a: string, t: string, sep: char)
    requires sep !in a
    ensures Split(a + [sep] + t, sep) == [a] + Split(t, sep)
  {
    var s := a + [sep] + t;
    if a == [] {
      assert s == [sep] + t;
      assert s[1..] == t;
    } else {
      assert a[0] in a;
      assert s[0] == a[0];
      assert s[1..] == a[1..] + [sep] + t;
      assert forall x :: x in a[1..] ==> x in a;
      SplitAfter(a[1..], t, sep);
      assert a == [a[0]] + a[1..];
    }
  }

  /** Splitting a joined list gives the list back when no piece holds the separator. */
  lemma {:induction false} JoinSplit(parts: seq<string>, sep: char)
    requires |parts| >= 1
    requires forall p :: p in parts ==> sep !in p
    ensures Split(Join(parts, sep), sep) == parts
  {
    assert parts[0] in parts;
    if |parts| == 1 {
      SplitFree(parts[0], sep);
    } else {
      var tail := parts[1..];
      assert forall p :: p in tail ==> p in parts;
      JoinSplit(tail, sep);
      SplitAfter(parts[0], Join(tail, sep), sep);
      assert parts == [parts[0]] + tail;
    }
  }

  /** A string without the separator splits into itself. */
  lemma {:induction false} SplitFree(s: string, sep: char)
    requires sep !in s
    ensures Split(s, sep) == [s]
  {
    if s != [] {
      SplitFree(s[1..], sep);
    }
  }

  /** Prefixes a successful result; a failure passes through. */
  function Prepend(prefix: string, r: Result<string, Exception>): Result<string, Exception> {
    match r
    case Success(s) => Success(prefix + s)
    case Failure(e) => Failure(e)
  }

  /** Prefixing twice is prefixing once with the concatenation. */
  lemma PrependTwice(a: string, b: string, r: Result<string, Exception>)
    ensures Prepend(a, Prepend(b, r)) == Prepend(a + b, r)
  {
    if r.Success? {
      assert a + (b + r.value) == (a + b) + r.value;
    }
  }

  const NotAllConverted := "not all arguments converted during string formatting"
  const NotEnoughArguments := "not enough arguments for format string"

  /** Python's `fmt % arg` for one `str` argument, over the `%s` and `%%`
      conversions; any other conversion character is reported as unsupported. */
  function Format(fmt: string, arg: string): Result<string, Exception> {
    FormatFrom(fmt, arg, false)
  }

  /** `Format` from some point on, `used` telling whether `arg` was consumed. */
  function FormatFrom(fmt: string, arg: string, used: bool): Result<string, Exception>
    decreases |fmt|
  {
    if fmt == [] then
      if used then Success([]) else Failure(TypeError(NotAllConverted))
    else if fmt[0] != '%' then
      Prepend([fmt[0]], FormatFrom(fmt[1..], arg, used))
    else if |fmt| == 1 then
      Failure(ValueError("incomplete format"))
    else if fmt[1] == '%' then
      Prepend("%", FormatFrom(fmt[2..], arg, used))
    else if fmt[1] == 's' then
      if used then Failure(TypeError(NotEnoughArguments))
      else Prepend(arg, FormatFrom(fmt[2..], arg, true))
    else
      Failure(ValueError("unsupported format character"))
  }

  /** Literal text without `%` is copied through unchanged. */
  lemma {:induction false} FormatLiteral(lit: string, rest: string, arg: string, used: bool)
    requires '%' !in lit
    ensures FormatFrom(lit + rest, arg, used) == Prepend(lit, FormatFrom(rest, arg, used))
    decreases |lit|
  {
    if lit != [] {
      assert lit[0] in lit;
      assert (lit + rest)[0] == lit[0];
      assert (lit + rest)[1..] == lit[1..] + rest;
      FormatLiteral(lit[1..], rest, arg, used);
      assert FormatFrom(lit + rest, arg, used) == Prepend([lit[0]], FormatFrom(lit[1..] + rest, arg, used));
      assert lit == [lit[0]] + lit[1..];
      PrependTwice([lit[0]], lit[1..], FormatFrom(rest, arg, used));
    } else {
      assert lit + rest == rest;
      match FormatFrom(rest, arg, used)
      case Success(t) => assert [] + t == t;
      case Failure(_) =>
    }
  }

  /** A template with no conversion at all rejects its argument. */
  lemma FormatWithoutConversion(fmt: string, arg: string)
    requires '%' !in fmt
    ensures Format(fmt, arg) == Failure(TypeError(NotAllConverted))
  {
    FormatLiteral(fmt, [], arg, false);
    assert fmt + [] == fmt;
  }

  /** A template with exactly one `%s` and no other `%` substitutes the argument for it. */
  lemma FormatOneConversion(pre: string, post: string, arg: string)
    requires '%' !in pre && '%' !in post
    ensures Format(pre + "%s" + post, arg) == Success(pre + arg + post)
  {
    var tail := "%s" + post;
    FormatLiteral(pre, tail, arg, false);
    assert pre + "%s" + post == pre + tail;
    assert tail[0] == '%' && tail[1] == 's' && tail[2..] == post;
    assert FormatFrom(tail, arg, false) == Prepend(arg, FormatFrom(post, arg, true));
    FormatLiteral(post, [], arg, true);
    assert post + [] == post;
    assert FormatFrom(post, arg, true) == Success(post);
    assert pre + (arg + post) == pre + arg + post;
  }
}
