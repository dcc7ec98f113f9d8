/** The parts of Go's `strings` package the translators use: `ToLower` for
    the case-blind parameter-group switch, and `Split` on a one-character
    separator (with `Join` as its inverse) for the `run` argument string. */
module GoStrings {

  /** Go's `unicode.ToLower` on the characters that matter for comparing
      against lower-case ASCII text: `A`-`Z`, and the only two non-ASCII
      characters whose lower case is ASCII, U+0130 (to `i`) and U+212A, the
      Kelvin sign (to `k`). Every other character is left as it is; Go maps
      some of those to other non-ASCII characters, never to ASCII ones. */
  function LowerRune(c: char): (l: char)
    ensures 'a' <= l <= 'z' ==> 'a' <= c <= 'z' || 'A' <= c <= 'Z' || c == '\U{0130}' || c == '\U{212A}'
  {
    if 'A' <= c <= 'Z' then (c as int - 'A' as int + 'a' as int) as char
    else if c == '\U{0130}' then 'i'
    else if c == '\U{212A}' then 'k'
    else c
  }

  /** `strings.ToLower`, character by character. */
  function ToLower(s: string): (r: string)
    ensures |r| == |s|
    ensures forall i :: 0 <= i < |s| ==> r[i] == LowerRune(s[i])
  {
    seq(|s|, i requires 0 <= i < |s| => LowerRune(s[i]))
  }

  /** Does `s` spell the lower-case text `t` in some casing? Each character
      of `s` is the one of `t`, the upper-case ASCII letter of it, or one of
      the two non-ASCII characters whose lower case is ASCII: U+0130 for `i`
      and the Kelvin sign U+212A for `k`. */
  predicate CaseVariant(s: string, t: string) {
    |s| == |t| && forall i :: 0 <= i < |s| ==> CharVariant(s[i], t[i])
  }

  predicate CharVariant(c: char, d: char) {
    || c == d
    || ('a' <= d <= 'z' && c as int == d as int - 32)
    || (d == 'i' && c == '\U{0130}')
    || (d == 'k' && c == '\U{212A}')
  }

  /** A character lowers to a lower-case ASCII letter or a space exactly
      when it is a casing of it. */
  lemma LowerRuneVariant(c: char, d: char)
    requires 'a' <= d <= 'z' || d == ' '
    ensures LowerRune(c) == d <==> CharVariant(c, d)
  {
  }

  /** Lower-casing gives a text of lower-case ASCII letters and spaces
      exactly when the string is a casing of that text. */
  lemma {:induction false} ToLowerVariant(s: string, t: string)
    requires forall i :: 0 <= i < |t| ==> 'a' <= t[i] <= 'z' || t[i] == ' '
    ensures ToLower(s) == t <==> CaseVariant(s, t)
  {
    if |s| == |t| {
      forall i | 0 <= i < |s|
        ensures ToLower(s)[i] == t[i] <==> CharVariant(s[i], t[i])
      {
        LowerRuneVariant(s[i], t[i]);
      }
      if CaseVariant(s, t) {
        assert forall i :: 0 <= i < |s| ==> ToLower(s)[i] == t[i];
      }
    }
  }

  /** How many times `c` occurs in `s`. */
  function Count(s: string, c: char): (n: nat) {
    if |s| == 0 then 0 else (if s[0] == c then 1 else 0) + Count(s[1..], c)
  }

  /** Go's `strings.Split(s, string(sep))`: the pieces of `s` between
      occurrences of `sep`, in order. Every occurrence cuts, so adjacent,
      leading and trailing separators give empty pieces, and the empty
      string gives one empty piece. */
  function Split(s: string, sep: char): (parts: seq<string>)
    ensures |parts| == Count(s, sep) + 1
    decreases |s|
  {
    if |s| == 0 then [""]
    else
      var rest := Split(s[1..], sep);
      if s[0] == sep then [""] + rest
      else [[s[0]] + rest[0]] + rest[1..]
  }

  /** Go's `strings.Join(parts, string(sep))`. */
  function Join(parts: seq<string>, sep: char): (s: string)
    decreases |parts|
  {
    if |parts| == 0 then ""
    else if |parts| == 1 then parts[0]
    else parts[0] + [sep] + Join(parts[1..], sep)
  }

  /** No piece of a split contains the separator. */
  lemma {:induction false} SplitPiecesAreFree(s: string, sep: char)
    ensures forall i :: 0 <= i < |Split(s, sep)| ==> sep !in Split(s, sep)[i]
    decreases |s|
  {
    if |s| > 0 {
      SplitPiecesAreFree(s[1..], sep);
    }
  }

  /** Joining the pieces of a split with the same separator gives back the
      original string. */
  lemma {:induction false} JoinSplit(s: string, sep: char)
    ensures Join(Split(s, sep), sep) == s
    decreases |s|
  {
    if |s| > 0 {
      var rest := Split(s[1..], sep);
      JoinSplit(s[1..], sep);
      if s[0] == sep {
        assert Split(s, sep) == [""] + rest;
        assert ([""] + rest)[1..] == rest;
        assert Join([""] + rest, sep) == "" + [sep] + Join(rest, sep);
      } else {
        var parts := [[s[0]] + rest[0]] + rest[1..];
        assert Split(s, sep) == parts;
        if |rest| == 1 {
          assert Join(parts, sep) == [s[0]] + rest[0];
        } else {
          assert parts[1..] == rest[1..];
          assert Join(parts, sep) == [s[0]] + rest[0] + [sep] + Join(rest[1..], sep);
          assert Join(rest, sep) == rest[0] + [sep] + Join(rest[1..], sep);
        }
        assert [s[0]] + s[1..] == s;
      }
    }
  }

  /** Splitting `p + t`, where `p` holds no separator, glues `p` to the
      front of the first piece of `t`. */
  lemma {:induction false} SplitFreePrefix(p: string, t: string, sep: char)
    requires sep !in p
    ensures Split(p + t, sep) == [p + Split(t, sep)[0]] + Split(t, sep)[1..]
    decreases |p|
  {
    if |p| > 0 {
      SplitFreePrefix(p[1..], t, sep);
      assert (p + t)[1..] == p[1..] + t;
      assert (p + t)[0] == p[0];
      assert [p[0]] + (p[1..] + Split(t, sep)[0]) == p + Split(t, sep)[0];
    } else {
      var st := Split(t, sep);
      assert p + t == t;
      assert p + st[0] == st[0];
      assert st == [st[0]] + st[1..];
    }
  }

  /** Splitting a join of separator-free pieces gives back the pieces: the
      other half of the round trip. */
  lemma {:induction false} SplitJoin(parts: seq<string>, sep: char)
    requires |parts| > 0
    requires forall i :: 0 <= i < |parts| ==> sep !in parts[i]
    ensures Split(Join(parts, sep), sep) == parts
    decreases |parts|
  {
    if |parts| == 1 {
      SplitFreePrefix(parts[0], "", sep);
      assert parts[0] + "" == parts[0];
    } else {
      var tail := Join(parts[1..], sep);
      SplitJoin(parts[1..], sep);
      SplitFreePrefix(parts[0], [sep] + tail, sep);
      assert parts[0] + [sep] + tail == parts[0] + ([sep] + tail);
      assert ([sep] + tail)[1..] == tail;
      assert Split([sep] + tail, sep) == [""] + parts[1..];
      assert Join(parts, sep) == parts[0] + ([sep] + tail);
      assert parts[0] + "" == parts[0];
      assert ([""] + parts[1..])[1..] == parts[1..];
      assert parts == [parts[0]] + parts[1..];
    }
  }
}
