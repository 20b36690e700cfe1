/** String helpers with the semantics of the JavaScript built-ins the service relies on:
    `Array.prototype.join(", ")`, its inverse, and the character classes `.` and `\s`
    of JavaScript regular expressions. */
module Text {

  /** The separator the service puts between addresses. */
  const Separator: string := ", "

  /** Characters that `.` in a JavaScript regular expression does not match. */
  predicate IsLineTerminator(c: char) {
    c == '\n' || c == '\r' || c == '\U{2028}' || c == '\U{2029}'
  }

  /** Characters matched by `\s` in a JavaScript regular expression. */
  predicate IsWhitespace(c: char) {
    c == '\t' || c == '\n' || c == '\U{B}' || c == '\U{C}' || c == '\r' || c == ' '
    || c == '\U{A0}' || c == '\U{1680}' || ('\U{2000}' <= c <= '\U{200A}')
    || c == '\U{2028}' || c == '\U{2029}' || c == '\U{202F}' || c == '\U{205F}'
    || c == '\U{3000}' || c == '\U{FEFF}'
  }

  /** `parts.join(", ")`: the empty list gives the empty string. */
  function Join(parts: seq<string>): (r: string)
    ensures parts == [] ==> r == ""
    ensures |parts| == 1 ==> r == parts[0]
    ensures |parts| >= 1 ==> |r| >= |parts[0]| && r[..|parts[0]|] == parts[0]
  {
    if |parts| == 0 then ""
    else if |parts| == 1 then parts[0]
    else parts[0] + Separator + Join(parts[1..])
  }

  /** Index of the first ", " in `s` at or after `from`, or `|s|` when there is none. */
  function SeparatorIndex(s: string, from: nat): (k: nat)
    requires from <= |s|
    ensures from <= k <= |s|
    ensures k < |s| ==> k + 1 < |s| && s[k] == ',' && s[k + 1] == ' '
    ensures forall j :: from <= j < k && j + 1 < |s| ==> !(s[j] == ',' && s[j + 1] == ' ')
    decreases |s| - from
  {
    if from + 1 >= |s| then |s|
    else if s[from] == ',' && s[from + 1] == ' ' then from
    else SeparatorIndex(s, from + 1)
  }

  /** `s.split(", ")`: always at least one piece; the empty string gives `[""]`. */
  function Split(s: string): (parts: seq<string>)
    ensures |parts| >= 1
    decreases |s|
  {
    var k := SeparatorIndex(s, 0);
    if k == |s| then [s] else [s[..k]] + Split(s[k + 2..])
  }

  /** The first ", " in `p + ", " + rest` is the one just after `p` when `p` holds no comma. */
  lemma {:induction false} SeparatorAfterPart(p: string, rest: string, from: nat)
    requires ',' !in p
    requires from <= |p|
    ensures SeparatorIndex(p + Separator + rest, from) == |p|
    decreases |p| - from
  {
    var s := p + Separator + rest;
    assert s[|p|] == ',' && s[|p| + 1] == ' ';
    if from < |p| {
      assert s[from] == p[from];
      SeparatorAfterPart(p, rest, from + 1);
    }
  }

  /** A string without ", " is not split. */
  lemma {:induction false} NoSeparatorIndex(s: string, from: nat)
    requires ',' !in s
    requires from <= |s|
    ensures SeparatorIndex(s, from) == |s|
    decreases |s| - from
  {
    if from + 1 < |s| {
      assert s[from] in s;
      NoSeparatorIndex(s, from + 1);
    }
  }

  /** Joining addresses loses nothing: splitting the joined string at ", " gives the
      addresses back, provided there is at least one and none contains a comma. */
  lemma {:induction false} SplitJoin(parts: seq<string>)
    requires |parts| >= 1
    requires forall i :: 0 <= i < |parts| ==> ',' !in parts[i]
    ensures Split(Join(parts)) == parts
    decreases |parts|
  {
    if |parts| == 1 {
      NoSeparatorIndex(parts[0], 0);
    } else {
      var s := Join(parts);
      var rest := Join(parts[1..]);
      assert s == parts[0] + Separator + rest;
      SeparatorAfterPart(parts[0], rest, 0);
      assert s[..|parts[0]|] == parts[0];
      assert s[|parts[0]| + 2..] == rest;
      SplitJoin(parts[1..]);
      assert [parts[0]] + parts[1..] == parts;
    }
  }
}
