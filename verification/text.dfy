/** String operations the application borrows from Python's `str`: `split()` with no
    separator, `replace`, `str(int)`/`f"{x}"` and `int(text)`. */
module TextOps {
  import opened Base

  /** Python's `str.isspace` for one character: the characters `split()` breaks on. */
  predicate IsSpace(c: char) {
    var n := c as int;
    n == 0x20 || 0x09 <= n <= 0x0D || 0x1C <= n <= 0x1F || n == 0x85 || n == 0xA0
    || n == 0x1680 || 0x2000 <= n <= 0x200A || n == 0x2028 || n == 0x2029
    || n == 0x202F || n == 0x205F || n == 0x3000
  }

  /** A token of `split()`: non-empty and free of whitespace. */
  predicate IsWord(w: string) {
    w != [] && forall i :: 0 <= i < |w| ==> !IsSpace(w[i])
  }

  /** `s` without its leading whitespace. */
  function SkipSpaces(s: string): (r: string)
    ensures |r| <= |s|
    ensures r != [] ==> !IsSpace(r[0])
  {
    if s != [] && IsSpace(s[0]) then SkipSpaces(s[1..]) else s
  }

  /** The longest prefix of `s` without whitespace. */
  function Word(s: string): (w: string)
    ensures |w| <= |s|
    ensures forall i :: 0 <= i < |w| ==> !IsSpace(w[i])
    ensures |w| < |s| ==> IsSpace(s[|w|])
  {
    if s == [] || IsSpace(s[0]) then [] else [s[0]] + Word(s[1..])
  }

  /** What follows the first word of `t`. */
  function AfterWord(t: string): (rest: string)
    ensures |rest| <= |t|
    ensures t != [] && !IsSpace(t[0]) ==> |rest| < |t|
  {
    t[|Word(t)|..]
  }

  /** Python's `s.split()`: the maximal runs of non-whitespace characters, in order. */
  function Split(s: string): seq<string>
    decreases |s|
  {
    var t := SkipSpaces(s);
    if t == [] then [] else [Word(t)] + Split(AfterWord(t))
  }

  /** `split()` yields non-empty tokens without whitespace. */
  lemma {:induction false} SplitYieldsWords(s: string)
    ensures forall i :: 0 <= i < |Split(s)| ==> IsWord(Split(s)[i])
    decreases |s|
  {
    var t := SkipSpaces(s);
    if t != [] {
      SplitYieldsWords(AfterWord(t));
      assert Split(s) == [Word(t)] + Split(AfterWord(t));
    }
  }

  /** Words put back together with one space between neighbours. */
  function JoinSpaced(words: seq<string>): string {
    if words == [] then ""
    else if |words| == 1 then words[0]
    else words[0] + " " + JoinSpaced(words[1..])
  }

  lemma {:induction false} WordOfJoin(w: string, rest: string)
    requires IsWord(w)
    ensures Word(w + " " + rest) == w
  {
    if |w| > 1 {
      assert (w + " " + rest)[1..] == w[1..] + " " + rest;
      WordOfJoin(w[1..], rest);
    } else {
      assert (w + " " + rest)[1..] == " " + rest;
    }
  }

  lemma {:induction false} WordOfWord(w: string)
    requires forall i :: 0 <= i < |w| ==> !IsSpace(w[i])
    ensures Word(w) == w
  {
    if w != [] {
      WordOfWord(w[1..]);
      assert w == [w[0]] + w[1..];
    }
  }

  lemma SplitOneWord(w: string)
    requires IsWord(w)
    ensures Split(w) == [w]
  {
    WordOfWord(w);
    assert SkipSpaces(w) == w;
    assert w[|w|..] == [];
  }

  lemma SplitWordThenRest(w: string, rest: string)
    requires IsWord(w)
    ensures Split(w + " " + rest) == [w] + Split(rest)
  {
    var s := w + " " + rest;
    assert SkipSpaces(s) == s;
    WordOfJoin(w, rest);
    assert s[|w|..] == " " + rest;
    assert (" " + rest)[1..] == rest;
  }

  /** Splitting words joined by single spaces gives the words back. */
  lemma {:induction false} SplitJoinRoundTrip(words: seq<string>)
    requires forall i :: 0 <= i < |words| ==> IsWord(words[i])
    ensures Split(JoinSpaced(words)) == words
  {
    if words == [] {
      assert SkipSpaces("") == "";
    } else if |words| == 1 {
      assert JoinSpaced(words) == words[0];
      SplitOneWord(words[0]);
    } else {
      var rest := words[1..];
      var joined := JoinSpaced(rest);
      assert forall i :: 0 <= i < |rest| ==> IsWord(rest[i]);
      SplitJoinRoundTrip(rest);
      SplitWordThenRest(words[0], joined);
      calc {
        Split(JoinSpaced(words));
        Split(words[0] + " " + joined);
        [words[0]] + Split(joined);
        [words[0]] + rest;
        words;
      }
    }
  }

  /** Two strings of equal length that agree on every non-whitespace character and have
      whitespace at the same places. */
  predicate SameWords(s: string, s': string) {
    |s| == |s'| &&
    forall i :: 0 <= i < |s| ==> IsSpace(s[i]) == IsSpace(s'[i]) && (!IsSpace(s[i]) ==> s[i] == s'[i])
  }

  lemma {:induction false} SkipSpacesSameWords(s: string, s': string)
    requires SameWords(s, s')
    ensures SameWords(SkipSpaces(s), SkipSpaces(s'))
  {
    if s != [] && IsSpace(s[0]) {
      SkipSpacesSameWords(s[1..], s'[1..]);
    }
  }

  lemma {:induction false} WordSameWords(s: string, s': string)
    requires SameWords(s, s')
    ensures Word(s) == Word(s')
  {
    if s != [] && !IsSpace(s[0]) {
      WordSameWords(s[1..], s'[1..]);
    }
  }

  /** `split()` sees only where the whitespace is, not which whitespace it is. */
  lemma {:induction false} SplitSameWords(s: string, s': string)
    requires SameWords(s, s')
    ensures Split(s) == Split(s')
    decreases |s|
  {
    var t, t' := SkipSpaces(s), SkipSpaces(s');
    SkipSpacesSameWords(s, s');
    if t != [] {
      WordSameWords(t, t');
      var w := Word(t);
      assert SameWords(t[|w|..], t'[|w|..]);
      SplitSameWords(t[|w|..], t'[|w|..]);
    }
  }

  /** Python's `text.replace('\n', ' ')`. */
  function NewlinesToSpaces(s: string): string {
    seq(|s|, i requires 0 <= i < |s| => if s[i] == '\n' then ' ' else s[i])
  }

  /** Turning newlines into spaces before `split()` changes nothing: `split()` already
      breaks on newlines. */
  lemma NewlinesAlreadySplit(s: string)
    ensures Split(NewlinesToSpaces(s)) == Split(s)
  {
    SplitSameWords(NewlinesToSpaces(s), s);
  }

  predicate StartsWithChr(s: string) {
    |s| >= 3 && s[0] == 'c' && s[1] == 'h' && s[2] == 'r'
  }

  /** Python's `s.replace('chr', '')`: one left-to-right pass that deletes every
      non-overlapping occurrence of "chr" it meets. */
  function RemoveChr(s: string): (r: string)
    ensures |r| <= |s|
  {
    if |s| < 3 then s
    else if StartsWithChr(s) then RemoveChr(s[3..])
    else [s[0]] + RemoveChr(s[1..])
  }

  predicate ContainsChr(s: string) {
    exists i :: 0 <= i <= |s| && StartsWithChr(s[i..])
  }

  /** A string that holds no "chr" is left as it is. */
  lemma {:induction false} RemoveChrNoOccurrence(s: string)
    requires !ContainsChr(s)
    ensures RemoveChr(s) == s
  {
    if |s| >= 3 {
      assert !StartsWithChr(s[0..]);
      assert s[0..] == s;
      assert !ContainsChr(s[1..]) by {
        forall i | 0 <= i <= |s| - 1 ensures !StartsWithChr(s[1..][i..]) {
          assert s[1..][i..] == s[i + 1..];
        }
      }
      RemoveChrNoOccurrence(s[1..]);
      assert s == [s[0]] + s[1..];
    }
  }

  /** A "chr" prefix goes, and what follows is treated the same way. */
  lemma RemoveChrPrefix(t: string)
    ensures RemoveChr("chr" + t) == RemoveChr(t)
  {
    assert StartsWithChr("chr" + t) && ("chr" + t)[3..] == t;
  }

  /** The single pass does not remove every "chr": deleting the middle of "cchrhr" joins
      its ends into a new "chr". */
  lemma RemoveChrCanLeaveChr()
    ensures RemoveChr("cchrhr") == "chr" && ContainsChr(RemoveChr("cchrhr"))
  {
    var s := "cchrhr";
    assert !StartsWithChr(s);
    assert s[1..] == "chrhr" && StartsWithChr(s[1..]) && s[1..][3..] == "hr";
    assert RemoveChr("hr") == "hr";
    assert "chr"[0..] == "chr";
  }

  function DigitChar(d: int): char
    requires 0 <= d < 10
  {
    (48 + d) as char
  }

  predicate IsDigit(c: char) {
    '0' <= c <= '9'
  }

  /** Python's `str(n)` for a natural number: its decimal digits, no leading zero. */
  function NatText(n: nat): (s: string)
    ensures s != [] && forall i :: 0 <= i < |s| ==> IsDigit(s[i])
  {
    if n < 10 then [DigitChar(n)] else NatText(n / 10) + [DigitChar(n % 10)]
  }

  /** Python's `str(x)` (and `f"{x}"`) for an integer. */
  function IntText(x: int): string {
    if x < 0 then "-" + NatText(-x) else NatText(x)
  }

  function DigitValue(c: char): nat
    requires IsDigit(c)
  {
    c as int - '0' as int
  }

  /** The number that a string of decimal digits denotes. */
  function DigitsValue(s: string): nat
    requires forall i :: 0 <= i < |s| ==> IsDigit(s[i])
  {
    if s == [] then 0 else DigitsValue(s[..|s| - 1]) * 10 + DigitValue(s[|s| - 1])
  }

  predicate AllDigits(s: string) {
    s != [] && forall i :: 0 <= i < |s| ==> IsDigit(s[i])
  }

  /** Python's `int(text)` for an optional sign followed by decimal digits; None where it
      would raise. */
  function ParseInt(s: string): Option<int> {
    if s != [] && (s[0] == '-' || s[0] == '+') then
      if AllDigits(s[1..]) then
        var v: int := DigitsValue(s[1..]);
        Some(if s[0] == '-' then -v else v)
      else None
    else if AllDigits(s) then Some(DigitsValue(s))
    else None
  }

  lemma {:induction false} DigitsOfNatText(n: nat)
    ensures DigitsValue(NatText(n)) == n
  {
    var s := NatText(n);
    if n >= 10 {
      DigitsOfNatText(n / 10);
      assert s[..|s| - 1] == NatText(n / 10);
    }
  }

  /** `int(str(x)) == x`: a number written out reads back as the same number. */
  lemma ParseIntText(x: int)
    ensures ParseInt(IntText(x)) == Some(x)
  {
    if x < 0 {
      var digits := NatText(-x);
      DigitsOfNatText(-x);
      var s := "-" + digits;
      assert s[0] == '-' && s[1..] == digits;
      assert AllDigits(digits);
    } else {
      var digits := NatText(x);
      DigitsOfNatText(x);
      assert IsDigit(digits[0]) && AllDigits(digits);
    }
  }

}
