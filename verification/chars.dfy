/** Character classes and case mapping used by the report's text, and the
    display key `name.split(' ')[0].toLowerCase()`. Case mapping is modelled
    on ASCII only: characters outside 'A'..'Z' and 'a'..'z' are left as they are. */
module Chars {

  predicate IsUpper(c: char) { 'A' <= c <= 'Z' }

  predicate IsLower(c: char) { 'a' <= c <= 'z' }

  predicate IsDigit(c: char) { '0' <= c <= '9' }

  /** The regular-expression class `\w` (without the `u` flag): ASCII letters,
      digits and underscore. */
  predicate IsWordChar(c: char) { IsUpper(c) || IsLower(c) || IsDigit(c) || c == '_' }

  /** The regular-expression class `\s`: the ECMAScript white-space and
      line-terminator characters. */
  predicate IsSpace(c: char)
  {
    var k := c as int;
    || (9 <= k <= 13)          // tab, line feed, vertical tab, form feed, carriage return
    || k == 0x20 || k == 0xA0 || k == 0x1680
    || (0x2000 <= k <= 0x200A)
    || k == 0x2028 || k == 0x2029 || k == 0x202F || k == 0x205F
    || k == 0x3000 || k == 0xFEFF
  }

  function ToLower(c: char): (d: char)
    ensures IsUpper(c) ==> IsLower(d) && d as int == c as int + 32
    ensures !IsUpper(c) ==> d == c
  {
    if IsUpper(c) then (c as int + 32) as char else c
  }

  function ToUpper(c: char): (d: char)
    ensures IsLower(c) ==> IsUpper(d) && d as int == c as int - 32
    ensures !IsLower(c) ==> d == c
  {
    if IsLower(c) then (c as int - 32) as char else c
  }

  /** `toLowerCase` on a string, character by character. */
  function LowerString(s: string): (r: string)
    ensures |r| == |s|
    ensures forall i :: 0 <= i < |s| ==> r[i] == ToLower(s[i])
  {
    if |s| == 0 then [] else [ToLower(s[0])] + LowerString(s[1..])
  }

  /** Case mapping keeps a character's class: word characters stay word
      characters, white space stays white space, everything else is fixed. */
  lemma CaseKeepsClass(c: char)
    ensures IsWordChar(ToLower(c)) == IsWordChar(c) && IsSpace(ToLower(c)) == IsSpace(c)
    ensures IsWordChar(ToUpper(c)) == IsWordChar(c) && IsSpace(ToUpper(c)) == IsSpace(c)
    ensures !IsWordChar(c) ==> ToLower(c) == c && ToUpper(c) == c
    ensures !IsUpper(ToLower(c)) && !IsLower(ToUpper(c))
  {
  }

  /** `name.split(' ')[0]`: the text before the first space character
      (the whole name when it holds none). Only U+0020 separates. */
  function FirstToken(name: string): (t: string)
    ensures |t| <= |name| && t == name[..|t|]
    ensures forall i :: 0 <= i < |t| ==> t[i] != ' '
    ensures |t| < |name| ==> name[|t|] == ' '
  {
    if |name| == 0 || name[0] == ' ' then [] else [name[0]] + FirstToken(name[1..])
  }

  /** The lower-case first name used as the emoji key `:firstname:`. */
  function DisplayKey(name: string): (k: string)
    ensures |k| <= |name|
    ensures forall i :: 0 <= i < |k| ==> k[i] != ' ' && !IsUpper(k[i])
    ensures forall i :: 0 <= i < |k| ==> k[i] == ToLower(name[i])
    ensures |k| < |name| ==> name[|k|] == ' '
  {
    LowerString(FirstToken(name))
  }

  /** Wraps a key in colons, as a Slack emoji reference. */
  function Emoji(key: string): (e: string)
    ensures |e| == |key| + 2 && e[0] == ':' && e[|e| - 1] == ':' && e[1..|e| - 1] == key
  {
    ":" + key + ":"
  }
}
