/** Strings as Python treats them in the modelled code: ASCII character classes,
    strip/split, decimal digits, substring containment. */
module Text {

  datatype Option<+T> = None | Some(value: T)

  datatype Result<+T, +E> = Success(value: T) | Failure(error: E)

  /** The values of the present entries, in order. */
  function Somes<T>(xs: seq<Option<T>>): seq<T> {
    if xs == [] then []
    else Somes(xs[..|xs| - 1]) + (if xs[|xs| - 1].Some? then [xs[|xs| - 1].value] else [])
  }

  lemma {:induction false} SomesAppend<T>(xs: seq<Option<T>>, ys: seq<Option<T>>)
    ensures Somes(xs + ys) == Somes(xs) + Somes(ys)
    decreases |ys|
  {
    if ys == [] {
      assert xs + ys == xs;
    } else {
      var init := ys[..|ys| - 1];
      assert (xs + ys)[..|xs + ys| - 1] == xs + init;
      assert (xs + ys)[|xs + ys| - 1] == ys[|ys| - 1];
      SomesAppend(xs, init);
    }
  }

  lemma SomesOne<T>(o: Option<T>)
    ensures Somes([o]) == if o.Some? then [o.value] else []
  {
    assert [o][..0] == [];
  }

  /** Two present entries in front come out first, in order. */
  lemma SomesTwoFirst<T>(xs: seq<Option<T>>)
    requires |xs| >= 2 && xs[0].Some? && xs[1].Some?
    ensures var vs := Somes(xs);
            |vs| >= 2 && vs[0] == xs[0].value && vs[1] == xs[1].value
  {
    var first := xs[..2];
    assert first[..1] == [xs[0]];
    SomesOne(xs[0]);
    assert xs == first + xs[2..];
    SomesAppend(first, xs[2..]);
  }

  /** Taking one more entry adds its value, if it has one. */
  lemma SomesStep<T>(xs: seq<Option<T>>, k: nat)
    requires k < |xs|
    ensures Somes(xs[..k + 1]) == Somes(xs[..k]) + if xs[k].Some? then [xs[k].value] else []
  {
    assert xs[..k + 1][..k] == xs[..k];
  }

  /** The last present entry. */
  function LastSome<T>(xs: seq<Option<T>>): Option<T> {
    if xs == [] then None
    else if xs[|xs| - 1].Some? then xs[|xs| - 1]
    else LastSome(xs[..|xs| - 1])
  }

  /** It is absent exactly when every entry is, and otherwise it is an entry
      with nothing present after it. */
  lemma {:induction false} LastSomeIsLast<T>(xs: seq<Option<T>>)
    ensures LastSome(xs).None? <==> forall k :: 0 <= k < |xs| ==> xs[k].None?
    ensures LastSome(xs).Some? ==>
              exists k :: 0 <= k < |xs| && xs[k] == LastSome(xs) && forall m :: k < m < |xs| ==> xs[m].None?
    decreases |xs|
  {
    if xs != [] {
      var init := xs[..|xs| - 1];
      LastSomeIsLast(init);
      assert forall k :: 0 <= k < |init| ==> init[k] == xs[k];
      if xs[|xs| - 1].None? && LastSome(init).Some? {
        var k :| 0 <= k < |init| && init[k] == LastSome(init) && forall m :: k < m < |init| ==> init[m].None?;
        assert xs[k] == LastSome(xs);
      }
    }
  }

  lemma LastSomePrefix<T>(xs: seq<Option<T>>, k: nat)
    requires 0 < k <= |xs|
    ensures LastSome(xs[..k]) == if xs[k - 1].Some? then xs[k - 1] else LastSome(xs[..k - 1])
  {
    assert xs[..k][..k - 1] == xs[..k - 1];
  }

  /** The last present result of f over xs. */
  function LastMapped<T, R>(xs: seq<T>, f: T -> Option<R>): Option<R> {
    if xs == [] then None
    else if f(xs[|xs| - 1]).Some? then f(xs[|xs| - 1])
    else LastMapped(xs[..|xs| - 1], f)
  }

  /** It is absent exactly when f gives nothing anywhere, and otherwise it is
      f's result at an element after which f gives nothing. */
  lemma {:induction false} LastMappedIsLast<T, R>(xs: seq<T>, f: T -> Option<R>)
    ensures LastMapped(xs, f).None? <==> forall k :: 0 <= k < |xs| ==> f(xs[k]).None?
    ensures LastMapped(xs, f).Some? ==>
              exists k :: 0 <= k < |xs| && f(xs[k]) == LastMapped(xs, f) &&
                          forall m :: k < m < |xs| ==> f(xs[m]).None?
    decreases |xs|
  {
    if xs != [] {
      var last := |xs| - 1;
      var init := xs[..last];
      LastMappedIsLast(init, f);
      if f(xs[last]).Some? {
        assert f(xs[last]) == LastMapped(xs, f);
      } else if LastMapped(init, f).Some? {
        var k :| 0 <= k < |init| && f(init[k]) == LastMapped(init, f) &&
                 forall m :: k < m < |init| ==> f(init[m]).None?;
        assert xs[k] == init[k];
        forall m | k < m < |xs| ensures f(xs[m]).None? {
          if m < last { assert xs[m] == init[m]; }
        }
        assert f(xs[k]) == LastMapped(xs, f);
      } else {
        forall k | 0 <= k < |xs| ensures f(xs[k]).None? {
          if k < last { assert xs[k] == init[k]; }
        }
      }
    }
  }

  predicate IsDigit(c: char) { '0' <= c <= '9' }

  predicate IsAsciiLetter(c: char) { 'a' <= c <= 'z' || 'A' <= c <= 'Z' }

  /** The ASCII whitespace that str.strip(), str.split() and float() skip. */
  predicate IsSpace(c: char) {
    c == ' ' || c == '\t' || c == '\n' || c == '\r' || c == '\U{B}' || c == '\U{C}'
  }

  predicate AllDigits(s: string) { forall i :: 0 <= i < |s| ==> IsDigit(s[i]) }

  /** `sub` occurs in `s` starting at index i. */
  predicate OccursAt(s: string, sub: string, i: int) {
    0 <= i && i + |sub| <= |s| && s[i..i + |sub|] == sub
  }

  predicate StartsWith(s: string, prefix: string) {
    |prefix| <= |s| && s[..|prefix|] == prefix
  }

  /** `sub in s` for strings and bytes: `sub` starts at some position of `s`.
      Written as a scan so that the solver unfolds it one position at a time. */
  predicate Contains(s: string, sub: string)
    decreases |s|
  {
    StartsWith(s, sub) || (|s| > 0 && Contains(s[1..], sub))
  }

  /** Contains holds exactly when `sub` occurs at some index. */
  lemma {:induction false} ContainsAt(s: string, sub: string, i: nat)
    requires i + |sub| <= |s| && s[i..i + |sub|] == sub
    ensures Contains(s, sub)
    decreases i
  {
    if i > 0 {
      assert s[1..][i - 1..i - 1 + |sub|] == s[i..i + |sub|];
      ContainsAt(s[1..], sub, i - 1);
    }
  }

  lemma ContainsConcat(a: string, b: string, c: string)
    ensures Contains(a + b + c, b)
  {
    assert (a + b + c)[|a|..|a| + |b|] == b;
    ContainsAt(a + b + c, b, |a|);
  }

  /** str.lstrip(chars) with the characters given as a predicate. */
  function TrimLeft(s: string, drop: char -> bool): (r: string)
    ensures |r| <= |s| && r == s[|s| - |r|..]
    ensures r != [] ==> !drop(r[0])
    ensures forall i :: 0 <= i < |s| - |r| ==> drop(s[i])
  {
    if s != [] && drop(s[0]) then TrimLeft(s[1..], drop) else s
  }

  /** str.rstrip(chars). */
  function TrimRight(s: string, drop: char -> bool): (r: string)
    ensures |r| <= |s| && r == s[..|r|]
    ensures r != [] ==> !drop(r[|r| - 1])
    ensures forall i :: |r| <= i < |s| ==> drop(s[i])
  {
    if s != [] && drop(s[|s| - 1]) then TrimRight(s[..|s| - 1], drop) else s
  }

  function StripWith(s: string, drop: char -> bool): string {
    TrimRight(TrimLeft(s, drop), drop)
  }

  /** Nothing is stripped from text whose two ends are kept. */
  lemma StripWithKeeps(s: string, drop: char -> bool)
    requires s != [] && !drop(s[0]) && !drop(s[|s| - 1])
    ensures StripWith(s, drop) == s
  {
    assert TrimLeft(s, drop) == s;
  }

  /** Text made only of dropped characters strips to nothing. */
  lemma StripWithAllDropped(s: string, drop: char -> bool)
    requires forall k :: 0 <= k < |s| ==> drop(s[k])
    ensures StripWith(s, drop) == []
  {
  }

  /** lstrip() removes exactly a prefix of dropped characters that a kept
      one follows. */
  lemma TrimLeftPrefix(pre: string, rest: string, drop: char -> bool)
    requires forall i :: 0 <= i < |pre| ==> drop(pre[i])
    requires rest != [] && !drop(rest[0])
    ensures TrimLeft(pre + rest, drop) == rest
  {
    var s := pre + rest;
    var r := TrimLeft(s, drop);
    assert s[|pre|] == rest[0];
    assert s[|pre|..] == rest;
  }

  /** rstrip() removes exactly a suffix of dropped characters that a kept
      one precedes. */
  lemma TrimRightSuffix(rest: string, post: string, drop: char -> bool)
    requires forall i :: 0 <= i < |post| ==> drop(post[i])
    requires rest != [] && !drop(rest[|rest| - 1])
    ensures TrimRight(rest + post, drop) == rest
  {
    var s := rest + post;
    var r := TrimRight(s, drop);
    assert s[|rest| - 1] == rest[|rest| - 1];
    assert s[..|rest|] == rest;
  }

  /** strip() takes off dropped characters on both sides of a core that
      begins and ends with kept ones, and nothing of the core. */
  lemma StripWithBetween(pre: string, core: string, post: string, drop: char -> bool)
    requires forall i :: 0 <= i < |pre| ==> drop(pre[i])
    requires forall i :: 0 <= i < |post| ==> drop(post[i])
    requires core != [] && !drop(core[0]) && !drop(core[|core| - 1])
    ensures StripWith(pre + core + post, drop) == core
  {
    assert pre + core + post == pre + (core + post);
    TrimLeftPrefix(pre, core + post, drop);
    TrimRightSuffix(core, post, drop);
  }

  /** str.strip() / bytes.strip(). */
  function Strip(s: string): string { StripWith(s, IsSpace) }

  /** Index of the first character satisfying `stop`, or |s|. */
  function IndexWhere(s: string, stop: char -> bool): (k: nat)
    ensures k <= |s|
    ensures k < |s| ==> stop(s[k])
    ensures forall i :: 0 <= i < k ==> !stop(s[i])
  {
    if s == [] || stop(s[0]) then 0 else 1 + IndexWhere(s[1..], stop)
  }

  function NotSpace(c: char): bool { !IsSpace(c) }

  /** s.find(c), or |s| when c does not occur. */
  function IndexOfChar(s: string, c: char): (k: nat)
    ensures k <= |s|
    ensures k < |s| ==> s[k] == c
    ensures forall i :: 0 <= i < k ==> s[i] != c
  {
    if s == [] || s[0] == c then 0 else 1 + IndexOfChar(s[1..], c)
  }

  lemma {:induction false} IndexOfCharConcat(a: string, b: string, c: char)
    requires c !in a
    ensures IndexOfChar(a + b, c) == |a| + IndexOfChar(b, c)
  {
    if a != [] {
      assert (a + b)[1..] == a[1..] + b;
      IndexOfCharConcat(a[1..], b, c);
    } else {
      assert a + b == b;
    }
  }

  predicate AllSpaces(s: string) { forall i :: 0 <= i < |s| ==> IsSpace(s[i]) }

  /** Trailing blanks after a word that ends in a non-blank are trimmed away. */
  lemma {:induction false} TrimRightPadded(t: string, pad: string)
    requires t != [] && !IsSpace(t[|t| - 1]) && AllSpaces(pad)
    ensures TrimRight(t + pad, IsSpace) == t
    decreases |pad|
  {
    if pad == [] {
      assert t + pad == t;
    } else {
      var shorter := pad[..|pad| - 1];
      assert (t + pad)[..|t + pad| - 1] == t + shorter;
      assert IsSpace((t + pad)[|t + pad| - 1]);
      TrimRightPadded(t, shorter);
    }
  }

  /** Stripping a word padded with trailing blanks gives the word. */
  lemma StripPadded(t: string, pad: string)
    requires t != [] && !IsSpace(t[0]) && !IsSpace(t[|t| - 1]) && AllSpaces(pad)
    ensures Strip(t + pad) == t
  {
    assert (t + pad)[0] == t[0];
    assert TrimLeft(t + pad, IsSpace) == t + pad;
    TrimRightPadded(t, pad);
  }

  /** str.split() without arguments: the maximal runs of non-whitespace. */
  function SplitWs(s: string): (tokens: seq<string>)
    decreases |s|
  {
    var t := TrimLeft(s, IsSpace);
    if t == [] then []
    else
      var k := IndexWhere(t, IsSpace);
      assert 0 < k <= |t| <= |s|;
      [t[..k]] + SplitWs(t[k..])
  }

  /** A token str.split() can give back: non-empty, without whitespace. */
  predicate IsWord(w: string) {
    w != [] && forall i :: 0 <= i < |w| ==> !IsSpace(w[i])
  }

  /** " ".join(words). */
  function Unwords(words: seq<string>): string
    decreases |words|
  {
    if words == [] then ""
    else if |words| == 1 then words[0]
    else words[0] + " " + Unwords(words[1..])
  }

  /** A word followed by nothing or by whitespace is the first token. */
  lemma SplitWsWord(w: string, rest: string)
    requires IsWord(w) && (rest == [] || IsSpace(rest[0]))
    ensures SplitWs(w + rest) == [w] + SplitWs(rest)
  {
    var s := w + rest;
    assert s[0] == w[0];
    assert TrimLeft(s, IsSpace) == s;
    assert forall i :: 0 <= i < |w| ==> s[i] == w[i];
    assert |w| < |s| ==> s[|w|] == rest[0];
    assert IndexWhere(s, IsSpace) == |w|;
    assert s[..|w|] == w && s[|w|..] == rest;
  }

  lemma ConsTail<T>(xs: seq<T>)
    requires xs != []
    ensures [xs[0]] + xs[1..] == xs
  {
  }

  /** Leading whitespace makes no token. */
  lemma SplitWsSpace(rest: string)
    ensures SplitWs(" " + rest) == SplitWs(rest)
  {
    assert (" " + rest)[1..] == rest;
  }

  /** str.split() gives back the words " ".join put together. */
  lemma {:induction false} SplitWsUnwords(words: seq<string>)
    requires forall k :: 0 <= k < |words| ==> IsWord(words[k])
    ensures SplitWs(Unwords(words)) == words
    decreases |words|
  {
    if |words| == 1 {
      SplitWsWord(words[0], "");
      assert words[0] + "" == words[0];
    } else if |words| > 1 {
      var tail := words[1..];
      var rest := Unwords(tail);
      assert forall k :: 0 <= k < |tail| ==> IsWord(tail[k]);
      SplitWsUnwords(tail);
      assert Unwords(words) == words[0] + (" " + rest);
      SplitWsWord(words[0], " " + rest);
      SplitWsSpace(rest);
      calc {
        SplitWs(Unwords(words));
        [words[0]] + SplitWs(" " + rest);
        [words[0]] + tail;
        { ConsTail(words); }
        words;
      }
    }
  }

  /** Joined words begin and end with a non-blank, so strip() keeps them. */
  lemma {:induction false} StripUnwords(words: seq<string>)
    requires words != [] && forall k :: 0 <= k < |words| ==> IsWord(words[k])
    ensures var s := Unwords(words);
            s != [] && !IsSpace(s[0]) && !IsSpace(s[|s| - 1]) && Strip(s) == s
    decreases |words|
  {
    var s := Unwords(words);
    if |words| > 1 {
      StripUnwords(words[1..]);
      var rest := Unwords(words[1..]);
      assert s == words[0] + " " + rest;
      assert s[0] == words[0][0] && s[|s| - 1] == rest[|rest| - 1];
    } else {
      assert s[|s| - 1] == words[0][|words[0]| - 1];
    }
    StripWithKeeps(s, IsSpace);
  }

  /** Stripping and splitting a line of words gives the words back. */
  lemma UnwordsFields(words: seq<string>)
    requires forall k :: 0 <= k < |words| ==> IsWord(words[k])
    ensures SplitWs(Strip(Unwords(words))) == words
  {
    if words == [] {
      assert Strip(Unwords(words)) == [];
    } else {
      StripUnwords(words);
    }
    SplitWsUnwords(words);
  }

  /** The first index at or after `from` where `sep` occurs in `s`. */
  function FindFrom(s: string, sep: string, from: nat): (r: Option<nat>)
    requires |sep| > 0
    ensures r.Some? ==> from <= r.value && OccursAt(s, sep, r.value)
    ensures r.Some? ==> forall i :: from <= i < r.value ==> !OccursAt(s, sep, i)
    ensures r.None? ==> forall i :: from <= i ==> !OccursAt(s, sep, i)
    decreases |s| - from
  {
    if from + |sep| > |s| then None
    else if s[from..from + |sep|] == sep then Some(from)
    else FindFrom(s, sep, from + 1)
  }

  /** str.split(sep) for a non-empty separator: empty fields are kept. */
  function Split(s: string, sep: string): (parts: seq<string>)
    requires |sep| > 0
    ensures |parts| >= 1
    decreases |s|
  {
    match FindFrom(s, sep, 0)
    case None => [s]
    case Some(i) => [s[..i]] + Split(s[i + |sep|..], sep)
  }

  /** A field holding no character that starts the separator is split off
      whole, and the rest is split as if on its own. */
  lemma SplitFirst(a: string, b: string, sep: string)
    requires |sep| > 0 && sep[0] !in a
    ensures Split(a + sep + b, sep) == [a] + Split(b, sep)
  {
    var s := a + sep + b;
    assert s[|a|..|a| + |sep|] == sep;
    assert OccursAt(s, sep, |a|);
    assert s[..|a|] == a;
    assert s[|a| + |sep|..] == b;
  }

  function DigitValue(c: char): (d: nat)
    ensures d < 10
  {
    if IsDigit(c) then c as int - '0' as int else 0
  }

  /** Value of a string of decimal digits; leading zeros are allowed. */
  function DigitsValue(s: string): nat {
    if s == [] then 0 else 10 * DigitsValue(s[..|s| - 1]) + DigitValue(s[|s| - 1])
  }

  function DigitChar(d: nat): (c: char)
    requires d < 10
    ensures IsDigit(c) && DigitValue(c) == d
  {
    ('0' as int + d) as char
  }

  /** Decimal rendering of a natural number, without leading zeros. */
  function NatToString(n: nat): (s: string)
    ensures AllDigits(s) && |s| >= 1
    ensures n >= 10 ==> s[0] != '0'
    decreases n
  {
    if n < 10 then [DigitChar(n)] else NatToString(n / 10) + [DigitChar(n % 10)]
  }

  /** f"{n}" for a Python int. */
  function IntToString(i: int): string {
    if i < 0 then "-" + NatToString(-i) else NatToString(i)
  }

  /** f"{n:0wd}" for n >= 0: zeros on the left up to width w, never truncated. */
  function PadZeros(n: nat, width: nat): (s: string)
    ensures AllDigits(s) && |s| >= width
  {
    var d := NatToString(n);
    if |d| >= width then d else seq(width - |d|, _ => '0') + d
  }

  lemma {:induction false} DigitsValueOfNat(n: nat)
    ensures DigitsValue(NatToString(n)) == n
    decreases n
  {
    if n >= 10 {
      DigitsValueOfNat(n / 10);
      var s := NatToString(n);
      assert s[..|s| - 1] == NatToString(n / 10);
    }
  }

  lemma {:induction false} DigitsValueLeadingZeros(z: nat, s: string)
    ensures DigitsValue(seq(z, _ => '0') + s) == DigitsValue(s)
    decreases |s|, z
  {
    var t := seq(z, _ => '0') + s;
    if s == [] {
      if z > 0 {
        assert t[..|t| - 1] == seq(z - 1, _ => '0') + [];
        DigitsValueLeadingZeros(z - 1, []);
      }
    } else {
      assert t[..|t| - 1] == seq(z, _ => '0') + s[..|s| - 1];
      DigitsValueLeadingZeros(z, s[..|s| - 1]);
    }
  }

  /** Reading a zero-padded number back gives the number. */
  lemma PadZerosValue(n: nat, width: nat)
    ensures DigitsValue(PadZeros(n, width)) == n
  {
    var d := NatToString(n);
    DigitsValueOfNat(n);
    if |d| < width {
      assert PadZeros(n, width) == seq(width - |d|, _ => '0') + d;
      DigitsValueLeadingZeros(width - |d|, d);
    } else {
      assert PadZeros(n, width) == d;
    }
  }

  /** Python int() of a string, restricted to unsigned digit strings. */
  function ParseNat(s: string): (r: Option<nat>)
    ensures r.Some? <==> s != [] && AllDigits(s)
  {
    if s != [] && AllDigits(s) then Some(DigitsValue(s)) else None
  }

  /** A decimal numeral reads back as its number and spans no line break. */
  lemma NatStringReadsBack(n: nat)
    ensures ParseNat(NatToString(n)) == Some(n)
    ensures '\n' !in NatToString(n)
  {
    DigitsValueOfNat(n);
    var s := NatToString(n);
    assert forall k :: 0 <= k < |s| ==> s[k] != '\n';
  }


  function LowerChar(c: char): char {
    if 'A' <= c <= 'Z' then (c as int + 32) as char else c
  }

  /** str.lower() on ASCII letters. */
  function Lower(s: string): (r: string)
    ensures |r| == |s| && forall i :: 0 <= i < |s| ==> r[i] == LowerChar(s[i])
  {
    seq(|s|, i requires 0 <= i < |s| => LowerChar(s[i]))
  }

  /** "\n".join(lines) + "\n": a text file whose lines each end in a newline. */
  function JoinLines(lines: seq<string>): string {
    if lines == [] then [] else lines[0] + "\n" + JoinLines(lines[1..])
  }

  function IsNewline(c: char): bool { c == '\n' }

  /** The lines of a text whose last line ends in a newline. */
  function LinesOf(s: string): seq<string>
    decreases |s|
  {
    if s == [] then []
    else
      var k := IndexWhere(s, IsNewline);
      if k == |s| then [s] else [s[..k]] + LinesOf(s[k + 1..])
  }

  /** A line without a newline, then a newline: the first newline ends it. */
  lemma FirstLine(head: string, rest: string)
    requires '\n' !in head
    ensures var s := head + "\n" + rest;
            IndexWhere(s, IsNewline) == |head| && s[..|head|] == head && s[|head| + 1..] == rest
  {
    var s := head + "\n" + rest;
    assert forall i :: 0 <= i < |head| ==> s[i] == head[i] && !IsNewline(s[i]);
    assert IsNewline(s[|head|]);
    assert s[..|head|] == head;
    assert s[|head| + 1..] == rest;
  }

  lemma {:induction false} LinesOfJoinLines(lines: seq<string>)
    requires forall k :: 0 <= k < |lines| ==> '\n' !in lines[k]
    ensures LinesOf(JoinLines(lines)) == lines
  {
    if lines != [] {
      var rest := JoinLines(lines[1..]);
      assert JoinLines(lines) == lines[0] + "\n" + rest;
      FirstLine(lines[0], rest);
      LinesOfJoinLines(lines[1..]);
      assert LinesOf(JoinLines(lines)) == [lines[0]] + LinesOf(rest);
    }
  }
}
