/**
 * The Python string builtins the evaluation engine relies on, over ASCII:
 * `str.lower()`, `str.split()` (no argument) and `sep.join(...)`; and
 * `s.split(c)` for one character `c`, defined only as the inverse of the
 * newline join of the rendered question lines.
 */
module Text {

  /** Python's `str.isspace` restricted to ASCII: tab, newline, vertical tab,
      form feed, carriage return (9..13), the four separators 28..31, and space. */
  predicate IsSpace(c: char) {
    9 <= c as int <= 13 || 28 <= c as int <= 32
  }

  predicate NoSpace(w: string) {
    forall i :: 0 <= i < |w| ==> !IsSpace(w[i])
  }

  /** A token produced by `str.split()`: non-empty, without whitespace. */
  predicate IsWord(w: string) {
    w != [] && NoSpace(w)
  }

  predicate IsUpper(c: char) {
    'A' <= c <= 'Z'
  }

  function LowerChar(c: char): (r: char)
    ensures !IsUpper(r)
    ensures IsSpace(r) <==> IsSpace(c)
    ensures !IsUpper(c) ==> r == c
    ensures IsUpper(c) ==> 'a' <= r <= 'z' && r as int - 'a' as int == c as int - 'A' as int
  {
    if IsUpper(c) then (c as int + 32) as char else c
  }

  /** `str.lower()` on ASCII letters; other characters are kept. */
  function Lower(s: string): (r: string)
    ensures |r| == |s|
    ensures forall i :: 0 <= i < |s| ==> r[i] == LowerChar(s[i])
  {
    seq(|s|, i requires 0 <= i < |s| => LowerChar(s[i]))
  }

  /** `str.split()`: the maximal runs of non-whitespace characters, in order. */
  function Split(s: string): (ws: seq<string>)
    ensures forall i :: 0 <= i < |ws| ==> IsWord(ws[i])
  {
    SplitFrom(s, "")
  }

  /** Splitting `s` while `cur` holds the characters of a token already begun. */
  function SplitFrom(s: string, cur: string): (ws: seq<string>)
    requires NoSpace(cur)
    ensures forall i :: 0 <= i < |ws| ==> IsWord(ws[i])
    decreases |s|
  {
    if s == [] then
      (if cur == [] then [] else [cur])
    else if IsSpace(s[0]) then
      (if cur == [] then SplitFrom(s[1..], []) else [cur] + SplitFrom(s[1..], []))
    else
      SplitFrom(s[1..], cur + [s[0]])
  }

  /** Lower-casing twice is lower-casing once. */
  lemma LowerIdempotent(s: string)
    ensures Lower(Lower(s)) == Lower(s)
  {
  }

  /** Lower-casing works character by character, so it distributes over
      concatenation. */
  lemma LowerConcat(a: string, b: string)
    ensures Lower(a + b) == Lower(a) + Lower(b)
  {
  }

  /** A whitespace character always ends a token: splitting around it splits
      the two sides independently. With `SplitJoin` and `SplitEmpty` this fixes
      `Split` on every input: runs of whitespace of any kind, and leading or
      trailing whitespace, produce no empty token. */
  lemma SplitAtSpace(a: string, c: char, b: string)
    requires IsSpace(c)
    ensures Split(a + [c] + b) == Split(a) + Split(b)
  {
    SplitFromAtSpace(a, c, b, "");
  }

  lemma {:induction false} SplitFromAtSpace(a: string, c: char, b: string, cur: string)
    requires IsSpace(c) && NoSpace(cur)
    ensures SplitFrom(a + [c] + b, cur) == SplitFrom(a, cur) + SplitFrom(b, "")
    decreases |a|
  {
    if a == [] {
      assert a + [c] + b == [c] + b;
      assert ([c] + b)[1..] == b;
    } else {
      assert (a + [c] + b)[0] == a[0];
      assert (a + [c] + b)[1..] == a[1..] + [c] + b;
      if IsSpace(a[0]) {
        SplitFromAtSpace(a[1..], c, b, "");
      } else {
        SplitFromAtSpace(a[1..], c, b, cur + [a[0]]);
      }
    }
  }

  /** `sep.join(parts)`. */
  function Join(parts: seq<string>, sep: string): (r: string)
    ensures parts == [] ==> r == ""
    ensures |parts| == 1 ==> r == parts[0]
  {
    if parts == [] then ""
    else if |parts| == 1 then parts[0]
    else parts[0] + sep + Join(parts[1..], sep)
  }

  /** A join begins with its first part. */
  lemma JoinStartsWithFirst(parts: seq<string>, sep: string)
    requires parts != []
    ensures parts[0] <= Join(parts, sep)
  {
  }

  /** Python's `s.split(c)` for a single character `c`, used only as the
      inverse of the newline join: never empty, keeps empty pieces. */
  function SplitOn(s: string, c: char): (r: seq<string>)
    ensures r != []
  {
    SplitOnFrom(s, c, "")
  }

  function SplitOnFrom(s: string, c: char, cur: string): (r: seq<string>)
    ensures r != []
    decreases |s|
  {
    if s == [] then [cur]
    else if s[0] == c then [cur] + SplitOnFrom(s[1..], c, "")
    else SplitOnFrom(s[1..], c, cur + [s[0]])
  }

  /** Continuing a token over more non-whitespace characters. */
  lemma {:induction false} SplitFromWord(w: string, rest: string, cur: string)
    requires NoSpace(cur) && NoSpace(w)
    ensures SplitFrom(w + rest, cur) == SplitFrom(rest, cur + w)
    decreases |w|
  {
    if w != [] {
      assert (w + rest)[0] == w[0];
      assert (w + rest)[1..] == w[1..] + rest;
      assert cur + w == (cur + [w[0]]) + w[1..];
      SplitFromWord(w[1..], rest, cur + [w[0]]);
    } else {
      assert w + rest == rest && cur + w == cur;
    }
  }

  /** Splitting undoes joining with a single space, for genuine tokens. */
  lemma {:induction false} SplitJoin(ws: seq<string>)
    requires forall i :: 0 <= i < |ws| ==> IsWord(ws[i])
    ensures Split(Join(ws, " ")) == ws
  {
    if |ws| == 1 {
      SplitFromWord(ws[0], "", "");
      assert ws[0] + "" == ws[0];
    } else if |ws| > 1 {
      var tail := Join(ws[1..], " ");
      assert Join(ws, " ") == ws[0] + (" " + tail);
      SplitFromWord(ws[0], " " + tail, "");
      assert ("" + ws[0]) == ws[0];
      assert (" " + tail)[1..] == tail;
      SplitJoin(ws[1..]);
      assert ws == [ws[0]] + ws[1..];
    }
  }

  /** No token at all exactly when every character is whitespace. */
  lemma {:induction false} SplitFromEmpty(s: string, cur: string)
    requires NoSpace(cur)
    ensures SplitFrom(s, cur) == [] <==> cur == [] && forall i :: 0 <= i < |s| ==> IsSpace(s[i])
    decreases |s|
  {
    if s != [] {
      if IsSpace(s[0]) {
        SplitFromEmpty(s[1..], []);
        if cur == [] {
          assert (forall i :: 0 <= i < |s| ==> IsSpace(s[i])) <==> (forall i :: 0 <= i < |s[1..]| ==> IsSpace(s[1..][i]));
        }
      } else {
        SplitFromEmpty(s[1..], cur + [s[0]]);
      }
    }
  }

  lemma SplitEmpty(s: string)
    ensures Split(s) == [] <==> forall i :: 0 <= i < |s| ==> IsSpace(s[i])
  {
    SplitFromEmpty(s, "");
  }

  /** Continuing a piece over characters other than the separator. */
  lemma {:induction false} SplitOnFromPiece(w: string, rest: string, c: char, cur: string)
    requires c !in w
    ensures SplitOnFrom(w + rest, c, cur) == SplitOnFrom(rest, c, cur + w)
    decreases |w|
  {
    if w != [] {
      assert (w + rest)[0] == w[0];
      assert (w + rest)[1..] == w[1..] + rest;
      assert cur + w == (cur + [w[0]]) + w[1..];
      SplitOnFromPiece(w[1..], rest, c, cur + [w[0]]);
    } else {
      assert w + rest == rest && cur + w == cur;
    }
  }

  /** `s.split(c)` undoes `c.join(lines)` when no line contains `c`
      (the list must be non-empty: `"".split(c)` is `[""]`). */
  lemma {:induction false} SplitOnJoin(lines: seq<string>, c: char)
    requires lines != []
    requires forall i :: 0 <= i < |lines| ==> c !in lines[i]
    ensures SplitOn(Join(lines, [c]), c) == lines
  {
    if |lines| == 1 {
      SplitOnFromPiece(lines[0], "", c, "");
      assert lines[0] + "" == lines[0];
      assert "" + lines[0] == lines[0];
    } else {
      var tail := Join(lines[1..], [c]);
      assert Join(lines, [c]) == lines[0] + ([c] + tail);
      SplitOnFromPiece(lines[0], [c] + tail, c, "");
      assert "" + lines[0] == lines[0];
      assert ([c] + tail)[1..] == tail;
      SplitOnJoin(lines[1..], c);
      assert lines == [lines[0]] + lines[1..];
    }
  }
}
