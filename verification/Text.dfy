/** The few Go string helpers the SDK relies on: trimming, case folding and
    separator removal. A `string` here is valid UTF-8 text, one `char` a rune. */
module Text {

  datatype Option<+T> = None | Some(value: T)

  /** The code points Go's unicode.IsSpace accepts. */
  predicate IsSpace(c: char) {
    || c == ' '
    || '\t' <= c <= '\r'
    || c in {'\U{0085}', '\U{00A0}', '\U{1680}', '\U{2028}', '\U{2029}', '\U{202F}', '\U{205F}', '\U{3000}'}
    || '\U{2000}' <= c <= '\U{200A}'
  }

  lemma SpacesExactly(c: char)
    ensures IsSpace(c) <==>
            var u := c as int;
            || u in {0x20, 0x85, 0xA0, 0x1680, 0x2028, 0x2029, 0x202F, 0x205F, 0x3000}
            || 0x09 <= u <= 0x0D || 0x2000 <= u <= 0x200A
  {
  }

  predicate IsDigit(c: char) {
    '0' <= c <= '9'
  }

  predicate AllDigits(s: string) {
    forall i :: 0 <= i < |s| ==> IsDigit(s[i])
  }

  function TrimLeft(s: string): string {
    if s != "" && IsSpace(s[0]) then TrimLeft(s[1..]) else s
  }

  function TrimRight(s: string): string {
    if s != "" && IsSpace(s[|s| - 1]) then TrimRight(s[..|s| - 1]) else s
  }

  /** strings.TrimSpace */
  function TrimSpace(s: string): string {
    TrimRight(TrimLeft(s))
  }

  /** No white space at either end. */
  predicate Trimmed(s: string) {
    s == "" || (!IsSpace(s[0]) && !IsSpace(s[|s| - 1]))
  }

  lemma {:induction false} TrimRightEnds(s: string)
    ensures TrimRight(s) <= s
    ensures TrimRight(s) != "" ==> !IsSpace(TrimRight(s)[|TrimRight(s)| - 1])
    ensures s == "" || !IsSpace(s[|s| - 1]) ==> TrimRight(s) == s
  {
    if s != "" && IsSpace(s[|s| - 1]) {
      TrimRightEnds(s[..|s| - 1]);
    }
  }

  lemma {:induction false} TrimLeftEnds(s: string)
    ensures |TrimLeft(s)| <= |s| && TrimLeft(s) == s[|s| - |TrimLeft(s)|..]
    ensures TrimLeft(s) != "" ==> !IsSpace(TrimLeft(s)[0])
  {
    if s != "" && IsSpace(s[0]) {
      TrimLeftEnds(s[1..]);
    }
  }

  /** Trimming returns trimmed text, and is the identity exactly on trimmed text. */
  lemma TrimSpaceTrims(s: string)
    ensures Trimmed(TrimSpace(s))
    ensures TrimSpace(s) == s <==> Trimmed(s)
    ensures |TrimSpace(s)| <= |s|
    ensures forall c :: c in TrimSpace(s) ==> c in s
  {
    TrimLeftEnds(s);
    TrimRightEnds(TrimLeft(s));
    TrimRightEnds(s);
  }

  /** White space goes from both ends, and nothing else. */
  lemma {:induction false} TrimSpaceExactly(front: string, s: string, back: string)
    requires (forall i :: 0 <= i < |front| ==> IsSpace(front[i])) && (forall i :: 0 <= i < |back| ==> IsSpace(back[i]))
    requires s == "" || (!IsSpace(s[0]) && !IsSpace(s[|s| - 1]))
    ensures TrimSpace(front + s + back) == s
    decreases |front| + |back|
  {
    if front != "" {
      TrimSpaceExactly(front[1..], s, back);
      assert (front + s + back)[1..] == front[1..] + s + back;
    } else if back != "" {
      var n := |back| - 1;
      TrimSpaceExactly(front, s, back[..n]);
      TrimsBack(s + back[..n], back[n]);
      assert front + s + back == (s + back[..n]) + [back[n]];
      assert front + s + back[..n] == s + back[..n];
    } else {
      assert front + s + back == s;
      TrimSpaceTrims(s);
    }
  }

  lemma TrimsBack(s: string, c: char)
    requires IsSpace(c)
    ensures TrimSpace(s + [c]) == TrimSpace(s)
    decreases |s|
  {
    var t := s + [c];
    assert t[..|t| - 1] == s;
    if s == "" {
      assert t[1..] == "";
    } else if IsSpace(s[0]) {
      assert t[1..] == s[1..] + [c];
      TrimsBack(s[1..], c);
    }
  }

  /** strings.NewReplacer with every separator mapped to the empty string. */
  function Without(s: string, separators: set<char>): string {
    if s == "" then ""
    else (if s[0] in separators then "" else [s[0]]) + Without(s[1..], separators)
  }

  lemma {:induction false} WithoutKeeps(s: string, separators: set<char>)
    ensures |Without(s, separators)| <= |s|
    ensures forall c :: c in Without(s, separators) <==> c in s && c !in separators
    ensures (forall c :: c in s ==> c !in separators) ==> Without(s, separators) == s
    ensures s != "" && s[0] !in separators ==> Without(s, separators) != "" && Without(s, separators)[0] == s[0]
  {
    if s != "" {
      WithoutKeeps(s[1..], separators);
      assert forall c :: c in s <==> c == s[0] || c in s[1..];
    }
  }

  /** Separators are dropped one by one and everything else keeps its place. */
  lemma {:induction false} WithoutExactly(s: string, t: string, separators: set<char>)
    ensures Without(s + t, separators) == Without(s, separators) + Without(t, separators)
  {
    if s == "" {
      assert s + t == t;
    } else {
      WithoutExactly(s[1..], t, separators);
      assert (s + t)[1..] == s[1..] + t;
      Associative(if s[0] in separators then "" else [s[0]], Without(s[1..], separators), Without(t, separators));
    }
  }

  lemma WithoutOne(c: char, separators: set<char>)
    ensures Without([c], separators) == if c in separators then "" else [c]
  {
    assert [c][1..] == "";
  }

  /** A separator put anywhere into trimmed text is dropped again. */
  lemma SeparatorsAreDropped(x: string, c: char, y: string, separators: set<char>)
    requires Trimmed(x + y) && c in separators
    ensures Without(TrimSpace(x + [c] + y), separators) == Without(TrimSpace(x + y), separators)
  {
    TrimSpaceTrims(x + y);
    WithoutExactly(x, y, separators);
    WithoutExactly(x + [c], y, separators);
    WithoutExactly(x, [c], separators);
    WithoutOne(c, separators);
    assert x + "" == x && "" + y == y && (x + y) + "" == x + y;
    if IsSpace(c) && x == "" {
      TrimSpaceExactly([c], y, "");
      assert [c] + y + "" == x + [c] + y && x + y == y;
    } else if IsSpace(c) && y == "" {
      TrimSpaceExactly("", x, [c]);
      assert "" + x + [c] == x + [c] + y && x + y == x;
    } else {
      var s := x + [c] + y;
      assert s[0] == (x + [c])[0] && s[|s| - 1] == ([c] + y)[|y|];
      assert x != "" ==> s[0] == (x + y)[0];
      assert y != "" ==> s[|s| - 1] == (x + y)[|x + y| - 1];
      TrimSpaceTrims(s);
    }
  }

  /** unicode.ToLower on the characters that lower-case to ASCII; any other
      character never meets the ASCII names it is compared with. */
  function Lower(c: char): char {
    if 'A' <= c <= 'Z' then (c as int + 32) as char
    else if c == '\U{0130}' then 'i'
    else if c == '\U{212A}' then 'k'
    else c
  }

  /** unicode.ToUpper, restricted in the same way. */
  function Upper(c: char): char {
    if 'a' <= c <= 'z' then (c as int - 32) as char
    else if c == '\U{0131}' then 'I'
    else if c == '\U{017F}' then 'S'
    else c
  }

  /** The simple case folding of strings.EqualFold, restricted in the same way. */
  function Fold(c: char): char {
    if 'A' <= c <= 'Z' then (c as int + 32) as char
    else if c == '\U{017F}' then 's'
    else if c == '\U{212A}' then 'k'
    else c
  }

  /** The characters that become one ASCII letter under each of the three mappings. */
  lemma CasesExactly(c: char, lower: char)
    requires 'a' <= lower <= 'z'
    ensures var upper := (lower as int - 32) as char;
            && (Lower(c) == lower <==>
                  c in {lower, upper} || (lower == 'i' && c == '\U{0130}') || (lower == 'k' && c == '\U{212A}'))
            && (Upper(c) == upper <==>
                  c in {lower, upper} || (lower == 'i' && c == '\U{0131}') || (lower == 's' && c == '\U{017F}'))
            && (Fold(c) == lower <==>
                  c in {lower, upper} || (lower == 's' && c == '\U{017F}') || (lower == 'k' && c == '\U{212A}'))
  {
  }

  /** Other characters stay what they are. */
  lemma OthersKeepTheirCase(c: char)
    requires !('a' <= c <= 'z') && !('A' <= c <= 'Z') && c !in {'\U{0130}', '\U{0131}', '\U{017F}', '\U{212A}'}
    ensures Lower(c) == c && Upper(c) == c && Fold(c) == c
  {
  }

  function ToLower(s: string): string {
    seq(|s|, i requires 0 <= i < |s| => Lower(s[i]))
  }

  function ToUpper(s: string): string {
    seq(|s|, i requires 0 <= i < |s| => Upper(s[i]))
  }

  predicate EqualFold(s: string, t: string) {
    |s| == |t| && forall i :: 0 <= i < |s| ==> Fold(s[i]) == Fold(t[i])
  }

  /** Texts that agree under folding agree character by character. */
  lemma EqualFoldExactly(s: string, t: string)
    ensures EqualFold("", t) <==> t == ""
    ensures forall c, d :: EqualFold(s + [c], t + [d]) <==> EqualFold(s, t) && Fold(c) == Fold(d)
    ensures forall c :: !EqualFold(s + [c], "")
  {
    forall c, d ensures EqualFold(s + [c], t + [d]) <==> EqualFold(s, t) && Fold(c) == Fold(d) {
      FoldSnoc(s, t, c, d);
    }
  }

  lemma FoldSnoc(s: string, t: string, c: char, d: char)
    ensures EqualFold(s + [c], t + [d]) <==> EqualFold(s, t) && Fold(c) == Fold(d)
  {
    var x, y := s + [c], t + [d];
    if EqualFold(x, y) {
      assert forall i :: 0 <= i < |s| ==> x[i] == s[i] && y[i] == t[i];
      assert x[|s|] == c && y[|s|] == d;
    }
  }

  lemma EqualFoldAt(s: string, t: string, i: nat)
    requires EqualFold(s, t) && i < |t|
    ensures i < |s| && Fold(s[i]) == Fold(t[i])
  {
  }

  lemma Associative<T>(x: seq<T>, y: seq<T>, z: seq<T>)
    ensures (x + y) + z == x + (y + z)
  {
  }

  predicate HasPrefix(s: string, prefix: string) {
    |prefix| <= |s| && s[..|prefix|] == prefix
  }

  predicate HasSuffix(s: string, suffix: string) {
    |suffix| <= |s| && s[|s| - |suffix|..] == suffix
  }

  lemma PrefixAndSuffix(s: string, t: string)
    ensures HasPrefix(s, t) <==> exists rest :: s == t + rest
    ensures HasSuffix(s, t) <==> exists rest :: s == rest + t
  {
    if HasPrefix(s, t) {
      assert s == t + s[|t|..];
    }
    if HasSuffix(s, t) {
      assert s == s[..|s| - |t|] + t;
    }
  }
}
