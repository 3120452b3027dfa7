/**
 The key names of the detach binding (cmd/pupptyeer/config.go).

 A Go string is a sequence of bytes; here it is a `string` whose characters are below 256.
 */
module KeyConfig {
  import opened Bytes
  import Detach

  datatype Key = Disabled | Byte(value: byte) | Bad
  datatype Binding = Off | Sequence(keys: seq<byte>) | Invalid

  predicate IsBytes(s: string) {
    forall c :: c in s ==> c < 256 as char
  }

  predicate Ascii(s: string) {
    forall c :: c in s ==> c < 128 as char
  }

  // ----- Trimming and lower-casing -----

  predicate Space(c: char) {
    c == ' ' || c == '\t' || c == '\n' || c == '\r' || c == 11 as char || c == 12 as char
  }

  function Trim(s: string): (t: string)
    ensures forall c :: c in t ==> c in s
    decreases |s|
  {
    if s != [] && Space(s[0]) then Trim(s[1..])
    else if s != [] && Space(s[|s| - 1]) then Trim(s[..|s| - 1])
    else s
  }

  function LowerChar(c: char): char {
    if 'A' <= c <= 'Z' then (c as int + 32) as char else c
  }

  function Lower(s: string): (t: string)
    ensures |t| == |s|
    ensures forall i :: 0 <= i < |s| ==> t[i] == LowerChar(s[i])
  {
    if s == [] then [] else [LowerChar(s[0])] + Lower(s[1..])
  }

  /** `lower` is the spec `t` in lower case, as far as its modifier goes. */
  predicate Lowered(t: string, lower: string) {
    && ("ctrl-" <= lower || "ctrl+" <= lower ==> |t| >= 5)
    && ("c-" <= lower ==> |t| >= 2)
  }

  /** Go's strings.TrimSpace and strings.ToLower, which follow Unicode. */
  datatype Text = Text(trim: string -> string, lower: string -> string)

  /** What is known of them: ASCII text is treated as above, and nothing else is lower-cased to a modifier. */
  ghost predicate Sound(text: Text) {
    && (forall s {:trigger text.trim(s)} :: Ascii(s) ==> text.trim(s) == Trim(s))
    && (forall s {:trigger text.lower(s)} :: Ascii(s) ==> text.lower(s) == Lower(s))
    && (forall s {:trigger text.trim(s)} :: IsBytes(s) ==> IsBytes(text.trim(s)))
    && (forall s {:trigger text.lower(s)} :: Lowered(s, text.lower(s)))
  }

  /** Trimming and lower-casing as Go does it; ASCII text alone could be treated as above. */
  type GoText = text: Text | Sound(text) witness Text(Trim, Lower)

  // ----- Bytes -----

  function HexDigit(c: char): (d: int)
    ensures -1 <= d < 16
  {
    if '0' <= c <= '9' then c as int - '0' as int
    else if 'a' <= c <= 'f' then c as int - 'a' as int + 10
    else if 'A' <= c <= 'F' then c as int - 'A' as int + 10
    else -1
  }

  /** strconv.ParseUint in base 16 with 8 bits: -1 for anything that is not one, or does not fit. */
  function ParseHex(s: string, acc: nat): int {
    if s == [] then acc
    else if HexDigit(s[0]) < 0 || acc * 16 + HexDigit(s[0]) > 255 then -1
    else ParseHex(s[1..], acc * 16 + HexDigit(s[0]))
  }

  predicate AllHex(s: string) {
    forall c :: c in s ==> HexDigit(c) >= 0
  }

  /** The number that hexadecimal digits stand for. */
  function HexValue(s: string): nat
    requires AllHex(s)
  {
    if s == [] then 0
    else
      assert s[|s| - 1] in s;
      HexValue(s[..|s| - 1]) * 16 + HexDigit(s[|s| - 1])
  }

  lemma {:induction false} ParseHexSnoc(s: string, c: char, acc: nat)
    requires acc <= 255
    ensures var v, d := ParseHex(s, acc), HexDigit(c);
            ParseHex(s + [c], acc) == if v < 0 || d < 0 || v * 16 + d > 255 then -1 else v * 16 + d
    decreases |s|
  {
    var t := s + [c];
    if s == [] {
      assert t[1..] == [];
    } else {
      assert t[1..] == s[1..] + [c];
      if HexDigit(s[0]) >= 0 && acc * 16 + HexDigit(s[0]) <= 255 {
        ParseHexSnoc(s[1..], c, acc * 16 + HexDigit(s[0]));
      }
    }
  }

  /** The number when all digits are hexadecimal and it fits a byte, with any number of zeros in front; else a refusal. */
  lemma {:induction false} ParseHexIs(s: string)
    ensures ParseHex(s, 0) == if AllHex(s) && HexValue(s) <= 255 then HexValue(s) else -1
    decreases |s|
  {
    if s != [] {
      var front, c := s[..|s| - 1], s[|s| - 1];
      assert s == front + [c];
      ParseHexIs(front);
      ParseHexSnoc(front, c, 0);
    }
  }

  /** Upper and lower case make no difference. */
  lemma {:induction false} ParseHexIgnoresCase(s: string, acc: nat)
    ensures ParseHex(Lower(s), acc) == ParseHex(s, acc)
    decreases |s|
  {
    if s != [] {
      assert HexDigit(LowerChar(s[0])) == HexDigit(s[0]);
      assert Lower(s)[1..] == Lower(s[1..]);
      if HexDigit(s[0]) >= 0 {
        ParseHexIgnoresCase(s[1..], acc * 16 + HexDigit(s[0]));
      }
    }
  }

  /** The byte a terminal sends for Ctrl and `ch`: the place of a letter in the alphabet, whatever its case. */
  function ControlByte(ch: char): (k: Key)
    ensures k.Byte? <==> ch == '?' || '@' <= ch <= '_' || 'a' <= ch <= 'z'
    ensures ch == '?' ==> k == Byte(0x7f)
    ensures '@' <= ch <= '_' ==> k == Byte(ch as int - '@' as int)
    ensures 'a' <= ch <= 'z' ==> k == Byte(ch as int - 'a' as int + 1)
    ensures k.Byte? || k.Bad?
  {
    var c := if 'a' <= ch <= 'z' then (ch as int - 32) as char else ch;
    if c == '?' then Byte(0x7f)
    else if '@' <= c <= '_' then Byte(c as int % 0x20)
    else Bad
  }

  // ----- Specs -----

  function ParseTrimmed(t: string, lower: string, allowBare: bool): Key
    requires IsBytes(t) && Lowered(t, lower)
  {
    if lower in {"", "none", "off", "disabled"} then Disabled
    else if |t| > 2 && t[0] == '0' && (t[1] == 'x' || t[1] == 'X') then
      var v := ParseHex(t[2..], 0);
      ParseHexIs(t[2..]);
      if v < 0 then Bad else Byte(v)
    else if "ctrl-" <= lower || "ctrl+" <= lower then Single(t[5..])
    else if "c-" <= lower then Single(t[2..])
    else if "^" <= t then Single(t[1..])
    else if allowBare && |t| == 1 then assert t[0] in t; Byte(t[0] as int)
    else Bad
  }

  function ParseKey(text: GoText, s: string, allowBare: bool): Key
    requires IsBytes(s)
  {
    var t := text.trim(s);
    ParseTrimmed(t, text.lower(t), allowBare)
  }

  function Single(rest: string): Key {
    if |rest| != 1 then Bad else ControlByte(rest[0])
  }

  function ResolveDetach(text: GoText, prefixRaw: string, keyRaw: string): Binding
    requires IsBytes(prefixRaw) && IsBytes(keyRaw)
  {
    var prefix := ParseKey(text, prefixRaw, false);
    if prefix.Bad? then Invalid
    else
      var key := ParseKey(text, keyRaw, prefix.Byte?);
      if key.Bad? then Invalid
      else if key.Disabled? then Off
      else if prefix.Byte? then Sequence([prefix.value, key.value])
      else Sequence([key.value])
  }

  /** A modifier, in any case. */
  predicate Modifier(m: string) {
    m == "^" || Lower(m) in {"c-", "ctrl-", "ctrl+"}
  }

  lemma LowerSplit(a: string, b: string)
    ensures Lower(a + b) == Lower(a) + Lower(b)
  {
    var l, r := Lower(a + b), Lower(a) + Lower(b);
    assert forall i :: 0 <= i < |l| ==> l[i] == r[i];
  }

  /** `t` is a modifier and `rest`, and `lower` is it in lower case. */
  predicate Split(t: string, lower: string, m: string, rest: string) {
    && t == m + rest && |lower| == |t|
    && if m == "^" then lower[0] == '^' else |m| >= 2 && m[0] in {'c', 'C'} && lower[0] == 'c'
  }

  lemma LongModifier(t: string, lower: string, m: string, rest: string, allowBare: bool)
    requires Split(t, lower, m, rest) && IsBytes(t) && Lowered(t, lower)
    requires |m| == 5 && ("ctrl-" <= lower || "ctrl+" <= lower)
    ensures ParseTrimmed(t, lower, allowBare) == Single(rest)
  {
    hide Single, ParseHex;
    assert t[5..] == rest;
  }

  lemma ShortModifier(t: string, lower: string, m: string, rest: string, allowBare: bool)
    requires Split(t, lower, m, rest) && IsBytes(t) && Lowered(t, lower)
    requires |m| == 2 && "c-" <= lower
    ensures ParseTrimmed(t, lower, allowBare) == Single(rest)
  {
    hide Single, ParseHex;
    assert t[2..] == rest && lower[1] == '-';
  }

  lemma CaretModifier(t: string, lower: string, rest: string, allowBare: bool)
    requires Split(t, lower, "^", rest) && IsBytes(t) && Lowered(t, lower)
    ensures ParseTrimmed(t, lower, allowBare) == Single(rest)
  {
    hide Single, ParseHex;
    assert t[1..] == rest && t[0] == '^';
  }

  lemma SplitInLowerCase(t: string, m: string, rest: string, lm: string, lr: string, allowBare: bool)
    requires t == m + rest && IsBytes(t) && |lm| == |m| && |lr| == |rest|
    requires lm in {"c-", "ctrl-", "ctrl+"} && m[0] in {'c', 'C'}
    ensures Lowered(t, lm + lr) && ParseTrimmed(t, lm + lr, allowBare) == Single(rest)
  {
    hide ParseTrimmed, Single;
    var lower := lm + lr;
    assert lm <= lower && lower[0] == lm[0] == 'c';
    if lm == "c-" {
      ShortModifier(t, lower, m, rest, allowBare);
    } else {
      LongModifier(t, lower, m, rest, allowBare);
    }
  }

  lemma ModifierLetter(m: string)
    requires Lower(m) in {"c-", "ctrl-", "ctrl+"}
    ensures m != "" && m[0] in {'c', 'C'} && m != "^"
  {
    assert LowerChar(m[0]) == Lower(m)[0] == 'c';
  }

  lemma ModifierSplits(m: string, rest: string, allowBare: bool)
    requires Modifier(m) && Ascii(m + rest)
    ensures IsBytes(m + rest) && Lowered(m + rest, Lower(m + rest))
    ensures ParseTrimmed(m + rest, Lower(m + rest), allowBare) == Single(rest)
  {
    hide ParseTrimmed, Single;
    var t := m + rest;
    if m == "^" {
      assert Lower(t)[0] == LowerChar(t[0]) == '^';
      CaretModifier(t, Lower(t), rest, allowBare);
    } else {
      LowerSplit(m, rest);
      ModifierLetter(m);
      hide Lower;
      SplitInLowerCase(t, m, rest, Lower(m), Lower(rest), allowBare);
    }
  }

  lemma NothingToTrim(m: string, ch: char)
    requires Modifier(m) && !Space(ch)
    ensures Trim(m + [ch]) == m + [ch]
  {
    var t := m + [ch];
    assert m != "^" ==> LowerChar(m[0]) == Lower(m)[0] == 'c';
  }

  /** A modifier and a key are the key's control byte, however they are written. */
  lemma ModifiedKey(text: GoText, m: string, ch: char, allowBare: bool)
    requires Modifier(m) && Ascii(m + [ch]) && !Space(ch)
    ensures IsBytes(m + [ch]) && ParseKey(text, m + [ch], allowBare) == ControlByte(ch)
  {
    NothingToTrim(m, ch);
    ModifierSplits(m, [ch], allowBare);
    hide ParseTrimmed, ControlByte, Lower, Trim, Modifier;
  }

  /** A spec that needs no trimming and is in ASCII. */
  predicate Plain(s: string) {
    Ascii(s) && s != "" && !Space(s[0]) && !Space(s[|s| - 1])
  }

  lemma PlainKey(text: GoText, s: string, allowBare: bool)
    requires Plain(s)
    ensures IsBytes(s) && Lowered(s, Lower(s))
    ensures ParseKey(text, s, allowBare) == ParseTrimmed(s, Lower(s), allowBare)
  {
    assert Trim(s) == s;
    assert text.trim(s) == s && text.lower(s) == Lower(s);
    hide ParseTrimmed, Trim, Lower;
  }

  /** Only blanks, tabs and line ends, vertical tabs and form feeds. */
  predicate White(s: string) {
    forall c :: c in s ==> c in {' ', '\t', '\n', '\r', 11 as char, 12 as char}
  }

  lemma TrimFirst(s: string)
    requires s != "" && Space(s[0])
    ensures Trim(s) == Trim(s[1..])
  {
  }

  lemma TrimLast(s: string)
    requires s != "" && !Space(s[0]) && Space(s[|s| - 1])
    ensures Trim(s) == Trim(s[..|s| - 1])
  {
  }

  lemma {:induction false} TrimmedEnd(s: string, end: string)
    requires White(end) && Plain(s)
    ensures Trim(s + end) == s
    decreases |end|
  {
    var t := s + end;
    if end == "" {
      assert t == s;
    } else {
      var n := |end| - 1;
      assert end[n] in end && forall c :: c in end[..n] ==> c in end;
      assert t[|t| - 1] == end[n] && t[..|t| - 1] == s + end[..n];
      hide Trim;
      TrimLast(t);
      TrimmedEnd(s, end[..n]);
    }
  }

  lemma {:induction false} TrimmedOff(front: string, s: string, end: string)
    requires White(front) && White(end) && Plain(s)
    ensures Trim(front + s + end) == s
    decreases |front|
  {
    hide Trim;
    var t := front + s + end;
    if front == "" {
      assert t == s + end;
      TrimmedEnd(s, end);
    } else {
      assert front[0] in front && forall c :: c in front[1..] ==> c in front;
      assert t[1..] == front[1..] + s + end;
      TrimFirst(t);
      TrimmedOff(front[1..], s, end);
    }
  }

  /** White space around a key makes no difference. */
  lemma SpaceAround(text: GoText, front: string, s: string, end: string, allowBare: bool)
    requires White(front) && White(end) && Plain(s)
    ensures IsBytes(front + s + end) && IsBytes(s)
    ensures ParseKey(text, front + s + end, allowBare) == ParseKey(text, s, allowBare)
  {
    var t := front + s + end;
    TrimmedOff(front, s, end);
    assert Trim(s) == s;
    assert Ascii(t) && text.trim(t) == Trim(t) && text.trim(s) == Trim(s);
    hide Trim, Lower, ParseTrimmed;
  }

  /** Modifiers and words as they are usually written. */
  lemma UsualSpellings()
    ensures Modifier("ctrl-") && Modifier("Ctrl-") && Modifier("CTRL+") && Modifier("C-") && Modifier("^")
    ensures Lower("None") == "none" && Lower("OFF") == "off"
  {
    assert Lower("ctrl-") == "ctrl-";
    assert Lower("Ctrl-") == "ctrl-";
    assert Lower("CTRL+") == "ctrl+";
    assert Lower("C-") == "c-";
    assert Lower("None") == "none";
    assert Lower("OFF") == "off";
  }

  /** A single character is a key of its own behind a prefix, and none without. */
  lemma BareKey(text: GoText, k: char, allowBare: bool)
    requires k < 128 as char && !Space(k)
    ensures IsBytes([k])
    ensures ParseKey(text, [k], allowBare) == if k == '^' || !allowBare then Bad else Byte(k as int)
  {
    PlainKey(text, [k], allowBare);
    assert |Lower([k])| == 1;
    hide Lower, Trim;
  }

  /** `0x` or `0X` and hexadecimal digits are that byte; with anything else behind it there is none. */
  lemma HexKey(text: GoText, zerox: string, digits: string, allowBare: bool)
    requires zerox in {"0x", "0X"} && digits != "" && Plain(zerox + digits)
    ensures IsBytes(zerox + digits)
    ensures ParseKey(text, zerox + digits, allowBare)
         == if AllHex(digits) && HexValue(digits) <= 255 then Byte(HexValue(digits)) else Bad
  {
    var s := zerox + digits;
    PlainKey(text, s, allowBare);
    assert s[2..] == digits && Lower(s)[0] == '0';
    ParseHexIs(digits);
    hide Lower, Trim, ParseHex, HexValue;
  }

  /** A modifier goes with one key, no fewer and no more. */
  lemma ModifierWithoutKey(text: GoText, m: string, rest: string, allowBare: bool)
    requires Modifier(m) && |rest| != 1 && Plain(m + rest)
    ensures IsBytes(m + rest) && ParseKey(text, m + rest, allowBare) == Bad
  {
    hide Lower, Trim, ParseTrimmed, Sound;
    PlainKey(text, m + rest, allowBare);
    ModifierSplits(m, rest, allowBare);
  }

  lemma TrimmedWord(t: string, lower: string, allowBare: bool)
    requires |t| >= 2 && t[0] !in {'^', '0'} && IsBytes(t) && Lowered(t, lower)
    requires |lower| == |t| && lower[0] != 'c' && lower !in {"none", "off", "disabled"}
    ensures ParseTrimmed(t, lower, allowBare) == Bad
  {
  }

  /** Two or more characters without a modifier are no key. */
  lemma WordsAreNoKeys(text: GoText, s: string, allowBare: bool)
    requires Plain(s) && |s| >= 2 && s[0] !in {'c', 'C', '^', '0'}
    requires Lower(s) !in {"none", "off", "disabled"}
    ensures IsBytes(s) && ParseKey(text, s, allowBare) == Bad
  {
    assert Lower(s)[0] == LowerChar(s[0]) != 'c';
    hide Lower, Trim, ParseTrimmed, Sound;
    PlainKey(text, s, allowBare);
    TrimmedWord(s, Lower(s), allowBare);
  }

  /** The words for no key, in any case. */
  lemma DisabledKey(text: GoText, s: string, allowBare: bool)
    requires Plain(s) && Lower(s) in {"none", "off", "disabled"}
    ensures IsBytes(s) && ParseKey(text, s, allowBare) == Disabled
  {
    PlainKey(text, s, allowBare);
    hide Lower, Trim;
  }

  lemma NothingIsDisabled(text: GoText, allowBare: bool)
    ensures ParseKey(text, "", allowBare) == Disabled
  {
    assert Ascii("") && Trim("") == "" && Lower("") == "";
    assert text.trim("") == "" && text.lower("") == "";
    hide Sound;
  }

  /** The binding that is in force when nothing is configured. */
  lemma DefaultBinding(text: GoText)
    ensures ResolveDetach(text, "", "ctrl-\\") == Sequence([0x1c])
  {
    hide ParseKey, Lower, Trim, Sound, Modifier;
    UsualSpellings();
    assert "ctrl-" + ['\\'] == "ctrl-\\";
    ModifiedKey(text, "ctrl-", '\\', false);
    NothingIsDisabled(text, false);
  }

  /** The prefix is typed first, and then the key: any character, which would not do on its own. */
  lemma PrefixThenKey(text: GoText, m: string, p: char, k: char)
    requires Modifier(m) && Ascii(m + [p]) && !Space(p) && ControlByte(p).Byte?
    requires k < 128 as char && !Space(k) && k != '^'
    ensures IsBytes(m + [p]) && IsBytes([k]) && IsBytes("")
    ensures ResolveDetach(text, m + [p], [k]) == Sequence([ControlByte(p).value, k as int])
    ensures ResolveDetach(text, "", [k]) == Invalid
  {
    hide ParseKey, Lower, Trim, Sound, Modifier;
    ModifiedKey(text, m, p, false);
    BareKey(text, k, true);
    BareKey(text, k, false);
    NothingIsDisabled(text, false);
  }

  /** The binding that tmux has. */
  lemma TmuxBinding(text: GoText)
    ensures ResolveDetach(text, "ctrl-b", "d") == Sequence([0x02, 0x64])
  {
    hide ParseKey, Lower, Trim, Sound, Modifier;
    UsualSpellings();
    assert "ctrl-" + ['b'] == "ctrl-b";
    PrefixThenKey(text, "ctrl-", 'b', 'd');
  }

  /** A spec that is no key makes the binding invalid, the prefix first; a disabled key switches detaching off. */
  lemma BadAndDisabledKeys(text: GoText, prefixRaw: string, keyRaw: string)
    requires IsBytes(prefixRaw) && IsBytes(keyRaw)
    ensures var p := ParseKey(text, prefixRaw, false);
            var k := ParseKey(text, keyRaw, p.Byte?);
            var b := ResolveDetach(text, prefixRaw, keyRaw);
            && (b == Invalid <==> p.Bad? || k.Bad?)
            && (b == Off <==> !p.Bad? && k.Disabled?)
            && (b.Sequence? ==> |b.keys| == (if p.Byte? then 2 else 1) && k == Byte(b.keys[|b.keys| - 1])
                                && (p.Byte? ==> p.value == b.keys[0]))
  {
    hide ParseKey, Sound;
  }

  /** Every binding that can be configured detaches exactly when it has been typed. */
  lemma ConfiguredBindingsAreExact(text: GoText, prefixRaw: string, keyRaw: string)
    requires IsBytes(prefixRaw) && IsBytes(keyRaw)
    ensures var b := ResolveDetach(text, prefixRaw, keyRaw);
            b.Sequence? ==> 1 <= |b.keys| <= 2 && Detach.Exact(b.keys)
  {
    hide ParseKey, Sound;
    var b := ResolveDetach(text, prefixRaw, keyRaw);
    if b.Sequence? {
      Detach.TwoKeysAreExact(b.keys);
    }
  }
}
