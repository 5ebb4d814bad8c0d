/** The small part of Python's `str` behaviour that the position encoder relies
    on: `isdigit`, `isupper`/`lower` on ASCII letters, `split("/")` and the
    whitespace `split()` used to take the first field of a position string. */
module Text {
  import opened Wrappers

  /** Characters Python's `str.split()` treats as separators: the ASCII
      whitespace and file/group/record/unit separators, NEL, no-break space,
      and the Unicode space separators and line/paragraph separators. */
  predicate IsSpace(c: char) {
    var n := c as int;
    || n == 32 || 9 <= n <= 13 || 28 <= n <= 31 || n == 0x85 || n == 0xA0
    || n == 0x1680 || 0x2000 <= n <= 0x200A || n == 0x2028 || n == 0x2029
    || n == 0x202F || n == 0x205F || n == 0x3000
  }

  predicate IsDigit(c: char) {
    '0' <= c <= '9'
  }

  function DigitValue(c: char): (d: nat)
    requires IsDigit(c)
    ensures d < 10
    ensures c == '0' + (d as char)
  {
    (c - '0') as nat
  }

  predicate IsUpper(c: char) {
    'A' <= c <= 'Z'
  }

  /** ASCII `str.lower()`. */
  function Lower(c: char): (l: char)
    ensures !IsUpper(l)
    ensures !IsUpper(c) ==> l == c
  {
    if IsUpper(c) then c - 'A' + 'a' else c
  }

  /** Number of occurrences of `d` in `s`. */
  function Occurrences(s: string, d: char): nat {
    if |s| == 0 then 0 else (if s[0] == d then 1 else 0) + Occurrences(s[1..], d)
  }

  /** Inverse of `Split`: the parts glued back with the separator between them. */
  function Join(parts: seq<string>, d: char): string {
    if |parts| == 0 then ""
    else if |parts| == 1 then parts[0]
    else parts[0] + [d] + Join(parts[1..], d)
  }

  /** Python's `s.split(d)` for a one-character separator: always at least one
      part, possibly empty ones, and one more part than separators. */
  function Split(s: string, d: char): (parts: seq<string>)
    ensures |parts| == Occurrences(s, d) + 1
    ensures forall i :: 0 <= i < |parts| ==> d !in parts[i]
  {
    if |s| == 0 then [""]
    else if s[0] == d then [""] + Split(s[1..], d)
    else
      var rest := Split(s[1..], d);
      [[s[0]] + rest[0]] + rest[1..]
  }

  lemma {:induction false} JoinSplit(s: string, d: char)
    ensures Join(Split(s, d), d) == s
    decreases |s|
  {
    if |s| == 0 {
    } else if s[0] == d {
      JoinSplit(s[1..], d);
      var rest := Split(s[1..], d);
      assert Split(s, d) == [""] + rest;
      assert ([""] + rest)[1..] == rest;
      assert s == [d] + s[1..];
    } else {
      JoinSplit(s[1..], d);
      var rest := Split(s[1..], d);
      var parts := [[s[0]] + rest[0]] + rest[1..];
      assert parts[1..] == rest[1..];
      if |rest| == 1 {
        assert s == [s[0]] + rest[0];
      } else {
        assert Join(rest, d) == rest[0] + [d] + Join(rest[1..], d);
        assert s == [s[0]] + s[1..];
      }
    }
  }

  /** Leading separators removed (the first step of `str.split()`). */
  function TrimStart(s: string): (t: string)
    ensures |t| <= |s| && t == s[|s| - |t|..]
    ensures |t| > 0 ==> !IsSpace(t[0])
    ensures forall k :: 0 <= k < |s| - |t| ==> IsSpace(s[k])
  {
    if |s| > 0 && IsSpace(s[0]) then TrimStart(s[1..]) else s
  }

  /** The longest prefix of `s` without separators. */
  function Token(s: string): (w: string)
    ensures w <= s
    ensures forall k :: 0 <= k < |w| ==> !IsSpace(w[k])
    ensures |w| < |s| ==> IsSpace(s[|w|])
  {
    if |s| > 0 && !IsSpace(s[0]) then [s[0]] + Token(s[1..]) else ""
  }

  /** Python's `s.split()[0]`: the first whitespace-separated field, or `None`
      where Python raises `IndexError` because `s` is blank. */
  function FirstField(s: string): (r: Option<string>)
    ensures r.None? <==> forall k :: 0 <= k < |s| ==> IsSpace(s[k])
    ensures r.Some? ==> |r.value| > 0 && forall k :: 0 <= k < |r.value| ==> !IsSpace(r.value[k])
    ensures r.Some? ==> r.value <= TrimStart(s)
  {
    var t := TrimStart(s);
    if |t| == 0 then None else Some(Token(t))
  }
}
