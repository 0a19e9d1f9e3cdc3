/** Generated service instance IDs.

    A text is a sequence of characters. Lower-casing maps each character to one
    character; what it does outside ASCII is the parameter `fold`. */
module ServiceId {
  import opened Decimal

  const MAX_LEN := 128

  // ---------------------------------------------------------------- sanitising

  /** Characters an ID keeps, apart from the dash. */
  predicate IsWordChar(c: char) {
    'a' <= c <= 'z' || IsDigit(c) || c == '.' || c == '_'
  }

  function Lower(fold: char -> char, c: char): char {
    if 'A' <= c <= 'Z' then 'a' + (c - 'A')
    else if c as int < 128 then c
    else fold(c)
  }

  function ToLower(fold: char -> char, s: string): (t: string)
    ensures |t| == |s|
  {
    seq(|s|, i requires 0 <= i < |s| => Lower(fold, s[i]))
  }

  /** The words of a text: its longest runs of characters that are kept. */
  function Words(s: string): seq<string> {
    if s == "" then []
    else
      var words, c := Words(s[..|s| - 1]), s[|s| - 1];
      if !IsWordChar(c) then words
      else if words != [] && |s| > 1 && IsWordChar(s[|s| - 2]) then
        words[..|words| - 1] + [words[|words| - 1] + [c]]
      else words + [[c]]
  }

  function JoinDashes(words: seq<string>): string {
    if words == [] then ""
    else if |words| == 1 then words[0]
    else JoinDashes(words[..|words| - 1]) + "-" + words[|words| - 1]
  }

  function TrimRight(s: string): (t: string)
    ensures t <= s && (t == "" || t[|t| - 1] != '-')
    ensures forall i | |t| <= i < |s| :: s[i] == '-'
  {
    if s != "" && s[|s| - 1] == '-' then TrimRight(s[..|s| - 1]) else s
  }

  function TrimLeft(s: string): string {
    if s != "" && s[0] == '-' then TrimLeft(s[1..]) else s
  }

  function Clip(s: string): string {
    if |s| > MAX_LEN then TrimRight(s[..MAX_LEN]) else s
  }

  /** The words of the lower-cased text joined by single dashes, cut to size. */
  function Sanitized(fold: char -> char, s: string): string {
    Clip(JoinDashes(Words(ToLower(fold, s))))
  }

  /** `Sanitize`: writes the characters kept, and one dash for each gap. */
  method Sanitize(fold: char -> char, s: string) returns (out: string)
    ensures out == Sanitized(fold, s)
  {
    var lower := ToLower(fold, s);
    var b, dash := "", false;
    for i := 0 to |lower|
      invariant b == Written(lower[..i])
      invariant dash <==> i > 0 && !IsWordChar(lower[i - 1])
    {
      var c := lower[i];
      assert lower[..i + 1][..i] == lower[..i];
      if !IsWordChar(c) {
        if !dash && |b| > 0 {
          b := b + "-";
        }
        dash := true;
      } else {
        b := b + [c];
        dash := false;
      }
    }
    assert lower[..|lower|] == lower;
    WrittenTrimmed(lower);
    out := TrimRight(TrimLeft(b));
    if |out| > MAX_LEN {
      out := TrimRight(out[..MAX_LEN]);
    }
  }

  /** What the builder holds after a prefix of the text. */
  function Written(s: string): string {
    if s == "" then ""
    else
      var b, c := Written(s[..|s| - 1]), s[|s| - 1];
      if IsWordChar(c) then b + [c]
      else if b != "" && IsWordChar(s[|s| - 2]) then b + "-"
      else b
  }

  ghost predicate IsWord(w: string) {
    w != "" && forall i | 0 <= i < |w| :: IsWordChar(w[i])
  }

  ghost predicate AllWords(words: seq<string>) {
    forall i | 0 <= i < |words| :: IsWord(words[i])
  }

  /** The words with one more character, which goes on the last word when it follows
      one that is kept. */
  function MoreWords(words: seq<string>, follows: bool, c: char): seq<string> {
    if !IsWordChar(c) then words
    else if words != [] && follows then words[..|words| - 1] + [words[|words| - 1] + [c]]
    else words + [[c]]
  }

  predicate EndsInWord(s: string) {
    s != "" && IsWordChar(s[|s| - 1])
  }

  lemma OneMoreChar(s: string, c: char)
    ensures Words(s + [c]) == MoreWords(Words(s), EndsInWord(s), c)
  {
    assert (s + [c])[..|s|] == s;
  }

  lemma MoreAreWords(words: seq<string>, follows: bool, c: char)
    requires AllWords(words)
    ensures AllWords(MoreWords(words, follows, c))
    ensures IsWordChar(c) ==> MoreWords(words, follows, c) != []
  {
    if IsWordChar(c) && words != [] && follows {
      var last := words[|words| - 1];
      assert IsWord(last);
      assert IsWord(last + [c]);
    }
  }

  lemma {:induction false} WordsAreWords(s: string)
    ensures AllWords(Words(s))
    ensures s != "" && IsWordChar(s[|s| - 1]) ==> Words(s) != []
  {
    if s != "" {
      var init, c := s[..|s| - 1], s[|s| - 1];
      WordsAreWords(init);
      OneMoreChar(init, c);
      assert s == init + [c];
      MoreAreWords(Words(init), EndsInWord(init), c);
    }
  }

  /** The dash the builder owes for a gap at the end of the text. */
  function GapDash(s: string): string {
    if s != "" && Words(s) != [] && !IsWordChar(s[|s| - 1]) then "-" else ""
  }

  /** The builder holds the words joined by dashes, and one more dash when the
      text read so far ends in a gap. */
  lemma {:induction false} WrittenWords(s: string)
    ensures Written(s) == JoinDashes(Words(s)) + GapDash(s)
  {
    if s != "" {
      var init, c := s[..|s| - 1], s[|s| - 1];
      WrittenWords(init);
      WordsAreWords(init);
      var words := Words(init);
      if words == [] {
        assert Words(s) == if IsWordChar(c) then [[c]] else [];
      } else {
        JoinNonEmpty(words);
        assert init[|init| - 1] == s[|s| - 2];
        if IsWordChar(c) {
          if IsWordChar(s[|s| - 2]) {
            JoinExtended(words, c);
          } else {
            JoinOneMore(words, [c]);
          }
        }
      }
    }
  }

  lemma JoinOneMore(words: seq<string>, w: string)
    requires words != []
    ensures JoinDashes(words + [w]) == JoinDashes(words) + "-" + w
  {
    assert (words + [w])[..|words|] == words;
  }

  lemma JoinNonEmpty(words: seq<string>)
    requires words != [] && AllWords(words)
    ensures JoinDashes(words) != ""
  {
  }

  lemma {:induction false} JoinExtended(words: seq<string>, c: char)
    requires words != []
    ensures var last := |words| - 1;
            JoinDashes(words[..last] + [words[last] + [c]]) == JoinDashes(words) + [c]
  {
    var last := |words| - 1;
    var init, w := words[..last], words[last];
    var longer := init + [w + [c]];
    assert longer[..last] == init;
    if last > 0 {
      var joined := JoinDashes(init) + "-";
      assert JoinDashes(longer) == joined + (w + [c]);
      assert joined + (w + [c]) == joined + w + [c];
    }
  }

  /** Joining words leaves no dash at the end, so trimming removes just the dash
      of a gap. */
  lemma TrimmedWords(words: seq<string>)
    requires AllWords(words)
    ensures var joined := JoinDashes(words);
            && TrimRight(joined) == joined
            && (words != [] ==> TrimRight(joined + "-") == joined)
  {
    var joined := JoinDashes(words);
    if words != [] {
      var w := words[|words| - 1];
      assert IsWord(w);
      assert joined[|joined| - 1] == w[|w| - 1];
      assert (joined + "-")[..|joined|] == joined;
    }
  }

  // ---------------------------------------------------------------- clean texts

  /** Only characters of an ID, no dash at the start and no two in a row. */
  ghost predicate Tidy(s: string) {
    && (forall i | 0 <= i < |s| :: IsWordChar(s[i]) || s[i] == '-')
    && (s != "" ==> s[0] != '-')
    && (forall i | 0 < i < |s| :: s[i] == '-' ==> s[i - 1] != '-')
  }

  /** A text that is already a sanitised ID. */
  ghost predicate Clean(s: string) {
    Tidy(s) && |s| <= MAX_LEN && (s != "" ==> s[|s| - 1] != '-')
  }

  lemma {:induction false} WrittenTidy(s: string)
    ensures Tidy(Written(s))
    ensures Written(s) != "" && IsWordChar(s[|s| - 1]) ==> Written(s)[|Written(s)| - 1] != '-'
    ensures TrimLeft(Written(s)) == Written(s)
  {
    if s != "" {
      WrittenTidy(s[..|s| - 1]);
    }
  }

  lemma {:induction false} WrittenTidyText(s: string)
    requires Tidy(s)
    ensures Written(s) == s
  {
    if s != "" {
      var init, c := s[..|s| - 1], s[|s| - 1];
      TidyPrefix(s, init);
      WrittenTidyText(init);
      assert s == init + [c];
      assert !IsWordChar(c) ==> c == '-' && init != "" && IsWordChar(init[|init| - 1]);
      assert init != "" ==> init[|init| - 1] == s[|s| - 2];
    }
  }

  lemma LowerTidy(fold: char -> char, s: string)
    requires Tidy(s)
    ensures ToLower(fold, s) == s
  {
  }

  lemma TidyPrefix(s: string, t: string)
    requires Tidy(s) && t <= s
    ensures Tidy(t)
  {
  }

  /** Trimming both ends of what the builder holds leaves the joined words. */
  lemma WrittenTrimmed(s: string)
    ensures TrimRight(TrimLeft(Written(s))) == JoinDashes(Words(s))
    ensures TrimRight(JoinDashes(Words(s))) == JoinDashes(Words(s))
    ensures Tidy(JoinDashes(Words(s)))
  {
    WrittenWords(s);
    WrittenTidy(s);
    WordsAreWords(s);
    TrimmedWords(Words(s));
    var joined := JoinDashes(Words(s));
    assert joined <= Written(s);
    TidyPrefix(Written(s), joined);
    assert joined + "" == joined;
  }

  lemma ClippedIsClean(s: string)
    requires Tidy(s) && TrimRight(s) == s
    ensures Clean(Clip(s))
  {
    TidyPrefix(s, Clip(s));
  }

  /** Every sanitised text is clean: it has only the characters of an ID, no dash
      at either end or next to another, and at most 128 of them. */
  lemma SanitizedIsClean(fold: char -> char, s: string)
    ensures Clean(Sanitized(fold, s))
  {
    var lower := ToLower(fold, s);
    WrittenTrimmed(lower);
    ClippedIsClean(JoinDashes(Words(lower)));
  }

  /** Sanitising changes exactly the texts that are not clean. */
  lemma FixedIffClean(fold: char -> char, s: string)
    ensures Sanitized(fold, s) == s <==> Clean(s)
  {
    SanitizedIsClean(fold, s);
    if Clean(s) {
      LowerTidy(fold, s);
      WrittenTidyText(s);
      WrittenTrimmed(s);
    }
  }

  lemma Idempotent(fold: char -> char, s: string)
    ensures Sanitized(fold, Sanitized(fold, s)) == Sanitized(fold, s)
  {
    SanitizedIsClean(fold, s);
    FixedIffClean(fold, Sanitized(fold, s));
  }

  // ------------------------------------------------------- what sanitising keeps

  /** The small letter for a capital one of ASCII; other characters stay. */
  predicate SmallFor(c: char, d: char) {
    if 'A' <= c <= 'Z' then d as int - c as int == 'a' as int - 'A' as int else d == c
  }

  lemma SmallIsLower(fold: char -> char, s: string, small: string)
    requires Tidy(small) && |small| == |s| && forall i | 0 <= i < |s| :: SmallFor(s[i], small[i])
    ensures ToLower(fold, s) == small
  {
    forall i | 0 <= i < |s|
      ensures Lower(fold, s[i]) == small[i]
    {
      assert IsWordChar(small[i]) || small[i] == '-';
    }
  }

  /** A text that is clean but for capital letters keeps its length and every character,
      capital letters becoming small. */
  lemma CapitalsBecomeSmall(fold: char -> char, s: string, small: string)
    requires Clean(small) && |small| == |s| && forall i | 0 <= i < |s| :: SmallFor(s[i], small[i])
    ensures Sanitized(fold, s) == small
  {
    SmallIsLower(fold, s, small);
    WrittenTidyText(small);
    WrittenTrimmed(small);
  }

  lemma MoreWordsBehind(front: seq<string>, words: seq<string>, follows: bool, c: char)
    requires follows ==> words != []
    ensures MoreWords(front + words, follows, c) == front + MoreWords(words, follows, c)
  {
    if follows {
      var all := front + words;
      assert all[..|all| - 1] == front + words[..|words| - 1];
    }
  }

  lemma {:induction false} WordsOfBoth(a: string, b: string)
    ensures Words(a + "-" + b) == Words(a) + Words(b)
  {
    if b == "" {
      OneMoreChar(a, '-');
      assert a + "-" + b == a + "-";
    } else {
      var init, c := b[..|b| - 1], b[|b| - 1];
      var before := a + "-" + init;
      assert b == init + [c] && a + "-" + b == before + [c];
      WordsOfBoth(a, init);
      WordsAreWords(init);
      OneMoreChar(init, c);
      OneMoreChar(before, c);
      assert EndsInWord(before) <==> EndsInWord(init);
      MoreWordsBehind(Words(a), Words(init), EndsInWord(init), c);
    }
  }

  /** Two texts joined by a dash, if both hold something. */
  function Dashed(a: string, b: string): string {
    if a == "" then b else if b == "" then a else a + "-" + b
  }

  lemma JoinOneBehind(a: seq<string>, init: seq<string>, last: string)
    requires a != [] && init != [] && JoinDashes(a + init) == JoinDashes(a) + "-" + JoinDashes(init)
    ensures JoinDashes(a + (init + [last])) == JoinDashes(a) + "-" + JoinDashes(init + [last])
  {
    assert a + (init + [last]) == (a + init) + [last];
    JoinOneMore(a + init, last);
    JoinOneMore(init, last);
    var x, y := JoinDashes(a), JoinDashes(init);
    assert x + "-" + y + "-" + last == x + "-" + (y + "-" + last);
  }

  lemma {:induction false} JoinLists(a: seq<string>, b: seq<string>)
    requires a != [] && b != []
    ensures JoinDashes(a + b) == JoinDashes(a) + "-" + JoinDashes(b)
  {
    var init, last := b[..|b| - 1], b[|b| - 1];
    assert b == init + [last];
    if init == [] {
      JoinOneMore(a, last);
    } else {
      JoinLists(a, init);
      JoinOneBehind(a, init, last);
    }
  }

  lemma {:induction false} JoinBoth(a: seq<string>, b: seq<string>)
    requires AllWords(a) && AllWords(b)
    ensures JoinDashes(a + b) == Dashed(JoinDashes(a), JoinDashes(b))
  {
    if b == [] {
      assert a + b == a;
    } else if a == [] {
      assert a + b == b;
    } else {
      JoinNonEmpty(a);
      JoinNonEmpty(b);
      JoinLists(a, b);
    }
  }

  lemma TrimsOne(s: string)
    requires Tidy(s)
    ensures |TrimRight(s)| >= |s| - 1
  {
    assert |s| >= 2 && s[|s| - 1] == '-' ==> s[|s| - 2] != '-';
  }

  /** What is sanitised and not cut has the words of the text. */
  lemma Uncut(fold: char -> char, s: string)
    requires |Sanitized(fold, s)| < MAX_LEN - 1
    ensures Sanitized(fold, s) == JoinDashes(Words(ToLower(fold, s)))
  {
    var joined := JoinDashes(Words(ToLower(fold, s)));
    WrittenTrimmed(ToLower(fold, s));
    var cut := if |joined| > MAX_LEN then joined[..MAX_LEN] else joined;
    TidyPrefix(joined, cut);
    TrimsOne(cut);
  }

  /** Two texts joined by a dash are sanitised each for itself, if the whole fits. */
  lemma SanitizedJoin(fold: char -> char, a: string, b: string)
    requires |Sanitized(fold, a)| + 1 + |Sanitized(fold, b)| < MAX_LEN - 1
    ensures Sanitized(fold, a + "-" + b) == Dashed(Sanitized(fold, a), Sanitized(fold, b))
  {
    Uncut(fold, a);
    Uncut(fold, b);
    var x, y := ToLower(fold, a), ToLower(fold, b);
    assert ToLower(fold, a + "-" + b) == x + "-" + y;
    WordsOfBoth(x, y);
    WordsAreWords(x);
    WordsAreWords(y);
    JoinBoth(Words(x), Words(y));
  }

  // ------------------------------------------------------------------------ IDs

  /** Joins a base and a suffix, cutting the base and never the suffix. */
  function WithSuffix(base: string, suffix: string): string
    requires |suffix| < MAX_LEN
  {
    var room := MAX_LEN - |suffix| - 1;
    var fitted := if |base| > room then TrimRight(base[..room]) else base;
    if fitted == "" then suffix else fitted + "-" + suffix
  }

  /** The ID of the instance listening on `port`; `random` replaces an empty host
      name. */
  function HostnamePort(fold: char -> char, name: string, hostname: string, random: string, port: int): string
    requires IsInt64(port)
  {
    var host := Sanitized(fold, hostname);
    var base := Sanitized(fold, name + "-" + if host == "" then random else host);
    ItoaIsShort(port);
    WithSuffix(base, Itoa(port))
  }

  /** The port an ID ends with. */
  function PortOf(id: string): int {
    var n := DigitsAt(id);
    var value: int := Value(id[n..]);
    if n > 0 && id[n - 1] == '-' && (n == 1 || id[n - 2] == '-') then -value else value
  }

  /** Where the digits at the end of a text begin. */
  function DigitsAt(s: string): (n: nat)
    ensures n <= |s| && (forall c | c in s[n..] :: IsDigit(c)) && (n > 0 ==> !IsDigit(s[n - 1]))
  {
    if s == "" || !IsDigit(s[|s| - 1]) then |s|
    else
      var n := DigitsAt(s[..|s| - 1]);
      assert s[n..] == s[..|s| - 1][n..] + [s[|s| - 1]];
      n
  }

  lemma {:induction false} DigitsAtEnd(front: string, digits: string)
    requires forall c | c in digits :: IsDigit(c)
    requires front != "" ==> !IsDigit(front[|front| - 1])
    ensures DigitsAt(front + digits) == |front|
  {
    if digits == "" {
      assert front + digits == front;
    } else {
      var s := front + digits;
      assert s[..|s| - 1] == front + digits[..|digits| - 1];
      DigitsAtEnd(front, digits[..|digits| - 1]);
    }
  }

  /** The base, as far as it fits: it is short enough and ends in no dash. */
  lemma Fitted(base: string, suffix: string) returns (fitted: string)
    requires |suffix| < MAX_LEN && Clean(base)
    ensures fitted <= base && |fitted| + 1 + |suffix| <= MAX_LEN
    ensures Tidy(fitted) && (fitted != "" ==> fitted[|fitted| - 1] != '-')
    ensures |base| + 1 + |suffix| > MAX_LEN ==> |fitted| + 1 + |suffix| >= MAX_LEN - 1
    ensures WithSuffix(base, suffix) == if fitted == "" then suffix else fitted + "-" + suffix
  {
    var room := MAX_LEN - |suffix| - 1;
    fitted := base;
    if |base| > room {
      TidyPrefix(base, base[..room]);
      TrimsOne(base[..room]);
      fitted := TrimRight(base[..room]);
      TidyPrefix(base, fitted);
    }
  }

  /** Whether the number after some text reads as a negative one: the dash before it
      has another dash before it, or nothing. */
  predicate Negates(front: string) {
    front != "" && front[|front| - 1] == '-' && (|front| == 1 || front[|front| - 2] == '-')
  }

  lemma {:induction false} NumberAtEnd(front: string, digits: string)
    requires forall c | c in digits :: IsDigit(c)
    requires front != "" ==> front[|front| - 1] == '-'
    ensures PortOf(front + digits) == if Negates(front) then 0 - Value(digits) else Value(digits)
  {
    var id := front + digits;
    DigitsAtEnd(front, digits);
    assert id[|front|..] == digits;
    assert front != "" ==> id[|front| - 1] == front[|front| - 1];
    assert |front| > 1 ==> id[|front| - 2] == front[|front| - 2];
  }

  lemma {:induction false} SignedAtEnd(base: string, sign: string, digits: string)
    requires sign == "" || sign == "-"
    requires forall c | c in digits :: IsDigit(c)
    requires base != "" ==> base[|base| - 1] != '-'
    ensures PortOf(if base == "" then sign + digits else base + "-" + (sign + digits)) ==
            if sign == "" then Value(digits) else 0 - Value(digits)
  {
    if base == "" {
      NumberAtEnd(sign, digits);
    } else {
      var front := base + "-" + sign;
      NumberAtEnd(front, digits);
      assert Negates(front) <==> sign == "-";
      assert base + "-" + (sign + digits) == front + digits;
    }
  }

  /** A number after a base that ends in no dash, or after none, can be read
      back. */
  lemma {:induction false} PortAfterBase(base: string, port: int)
    requires base != "" ==> base[|base| - 1] != '-'
    ensures PortOf(if base == "" then Itoa(port) else base + "-" + Itoa(port)) == port
  {
    var magnitude := if port < 0 then -port else port;
    ValueDigits(magnitude);
    SignedAtEnd(base, if port < 0 then "-" else "", Digits(magnitude));
    assert port >= 0 ==> "" + Digits(magnitude) == Digits(magnitude);
  }

  /** The port can be read back from the ID, whatever the name and the host, so
      two ports never share an ID. */
  lemma PortIsRecoverable(fold: char -> char, name: string, hostname: string, random: string, port: int)
    requires IsInt64(port)
    ensures PortOf(HostnamePort(fold, name, hostname, random, port)) == port
    ensures |HostnamePort(fold, name, hostname, random, port)| <= MAX_LEN
  {
    var host := Sanitized(fold, hostname);
    var text := name + "-" + if host == "" then random else host;
    SanitizedIsClean(fold, text);
    ItoaIsShort(port);
    var fitted := Fitted(Sanitized(fold, text), Itoa(port));
    PortAfterBase(fitted, port);
  }

  /** A generated ID that fits is the sanitised name, the sanitised host and the port,
      joined by dashes; the random text stands for a host without any character kept. */
  lemma IdIsReadable(fold: char -> char, name: string, hostname: string, random: string, port: int)
    requires IsInt64(port)
    ensures var n, p := Sanitized(fold, name), Itoa(port);
            var h := Sanitized(fold, if Sanitized(fold, hostname) == "" then random else hostname);
            |n| + 1 + |h| + 1 + |p| <= MAX_LEN ==>
              HostnamePort(fold, name, hostname, random, port) == Dashed(Dashed(n, h), p)
  {
    var n, p, host := Sanitized(fold, name), Itoa(port), Sanitized(fold, hostname);
    var h := Sanitized(fold, if host == "" then random else hostname);
    ItoaIsShort(port);
    Idempotent(fold, hostname);
    if |n| + 1 + |h| + 1 + |p| <= MAX_LEN {
      SanitizedJoin(fold, name, if host == "" then random else host);
    }
  }

  /** One that does not fit loses the end of its base and nothing else, and no more than
      it must, but for a dash. */
  lemma CutIsLeast(fold: char -> char, name: string, hostname: string, random: string, port: int)
    returns (fitted: string)
    requires IsInt64(port)
    ensures var host, p := Sanitized(fold, hostname), Itoa(port);
            var base := Sanitized(fold, name + "-" + if host == "" then random else host);
            var id := HostnamePort(fold, name, hostname, random, port);
            |base| + 1 + |p| > MAX_LEN ==> fitted <= base && id == fitted + "-" + p && MAX_LEN - 1 <= |id| <= MAX_LEN
  {
    var host, p := Sanitized(fold, hostname), Itoa(port);
    var text := name + "-" + if host == "" then random else host;
    SanitizedIsClean(fold, text);
    ItoaIsShort(port);
    fitted := Fitted(Sanitized(fold, text), p);
  }

  lemma DifferentPorts(fold: char -> char, name1: string, host1: string, random1: string, port1: int,
                       name2: string, host2: string, random2: string, port2: int)
    requires IsInt64(port1) && IsInt64(port2)
    requires port1 != port2
    ensures HostnamePort(fold, name1, host1, random1, port1) != HostnamePort(fold, name2, host2, random2, port2)
  {
    PortIsRecoverable(fold, name1, host1, random1, port1);
    PortIsRecoverable(fold, name2, host2, random2, port2);
  }

  lemma CleanWithDigits(base: string, digits: string)
    requires Tidy(base) && (base != "" ==> base[|base| - 1] != '-') && |base| + 1 + |digits| <= MAX_LEN
    requires digits != "" && forall i | 0 <= i < |digits| :: IsDigit(digits[i])
    ensures Clean(if base == "" then digits else base + "-" + digits)
  {
  }

  /** An ID is itself clean, so that sanitising it again changes nothing, exactly
      when its port is not negative: the sign would make a second dash. */
  lemma IdIsClean(fold: char -> char, name: string, hostname: string, random: string, port: int)
    requires IsInt64(port)
    ensures Clean(HostnamePort(fold, name, hostname, random, port)) <==> port >= 0
  {
    var host := Sanitized(fold, hostname);
    var text := name + "-" + if host == "" then random else host;
    SanitizedIsClean(fold, text);
    ItoaIsShort(port);
    var fitted := Fitted(Sanitized(fold, text), Itoa(port));
    if port >= 0 {
      CleanWithDigits(fitted, Digits(port));
    } else {
      SignIsNotClean(fitted, Itoa(port));
    }
  }

  lemma SignIsNotClean(base: string, signed: string)
    requires signed != "" && signed[0] == '-'
    ensures !Clean(if base == "" then signed else base + "-" + signed)
  {
    var id := base + "-" + signed;
    assert id[|base|] == '-' && id[|base| + 1] == signed[0];
  }
}
