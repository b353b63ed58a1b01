/** The string operations the node names, reprs and the graph rendering use:
    `sep.join(xs)`, `str.strip()` and the slice `s[:-3]`. */
module Text {

  /** `sep.join(xs)`. */
  function Join(xs: seq<string>, sep: string): string
  {
    if |xs| == 0 then "" else if |xs| == 1 then xs[0] else xs[0] + sep + Join(xs[1..], sep)
  }

  /** Joining one more item adds the separator and the item at the end. */
  lemma {:induction false} JoinSnoc(xs: seq<string>, x: string, sep: string)
    requires |xs| > 0
    ensures Join(xs + [x], sep) == Join(xs, sep) + sep + x
  {
    if |xs| == 1 {
      assert (xs + [x])[1..] == [x];
    } else {
      assert (xs + [x])[1..] == xs[1..] + [x];
      JoinSnoc(xs[1..], x, sep);
    }
  }

  /** The characters Python's `str.strip()` removes: those for which
      `str.isspace()` holds (Unicode white space and the separators). */
  predicate IsSpace(c: char) {
    ('\t' <= c <= '\r') || ('\U{001C}' <= c <= ' ')
    || c == '\U{0085}' || c == '\U{00A0}' || c == '\U{1680}'
    || ('\U{2000}' <= c <= '\U{200A}')
    || c == '\U{2028}' || c == '\U{2029}' || c == '\U{202F}' || c == '\U{205F}' || c == '\U{3000}'
  }

  function LStrip(s: string): string {
    if |s| > 0 && IsSpace(s[0]) then LStrip(s[1..]) else s
  }

  function RStrip(s: string): string {
    if |s| > 0 && IsSpace(s[|s| - 1]) then RStrip(s[..|s| - 1]) else s
  }

  /** `s.strip()`. */
  function Strip(s: string): string { LStrip(RStrip(s)) }

  /** Neither empty nor starting or ending with white space. */
  predicate Trimmed(s: string) {
    |s| > 0 && !IsSpace(s[0]) && !IsSpace(s[|s| - 1])
  }

  /** Stripping a trimmed string with one leading space gives it back. */
  lemma StripPadded(j: string)
    requires Trimmed(j)
    ensures Strip(" " + j) == j
  {
    var p := " " + j;
    assert p[|p| - 1] == j[|j| - 1];
    assert RStrip(p) == p;
    assert p[1..] == j;
    assert LStrip(p) == LStrip(j);
    assert LStrip(j) == j;
  }

  /** `s[:-3]`: all but the last three characters, and `""` for shorter strings. */
  function DropLast3(s: string): string {
    if |s| >= 3 then s[..|s| - 3] else ""
  }
}
