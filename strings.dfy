/**
 * The pieces of Python 2's byte-string API that the script relies on:
 * `str.split()` with no separator, `str.replace('  ', ' ')` and
 * `str.endswith(...)`. A line is a sequence of characters, one per byte.
 */
module Strings {

  /** The bytes Python 2's `str.isspace` accepts: space, \t, \n, \v, \f, \r. */
  predicate IsSpace(c: char)
  {
    c == ' ' || c == '\t' || c == '\n' || c == '\r' || c as int == 0x0B || c as int == 0x0C
  }

  predicate NoSpace(w: string)
  {
    forall i :: 0 <= i < |w| ==> !IsSpace(w[i])
  }

  /** A field as `split()` produces it: non-empty and free of whitespace. */
  predicate IsField(w: string)
  {
    w != [] && NoSpace(w)
  }

  /** The word collected so far, as a list of zero or one fields. */
  function Emit(word: string): seq<string>
  {
    if word == [] then [] else [word]
  }

  /**
   * Scans `s` left to right; `word` is the field being collected. Runs of
   * whitespace separate fields, and whitespace at either end yields none.
   */
  function SplitFrom(s: string, word: string): seq<string>
    decreases |s|
  {
    if s == [] then Emit(word)
    else if IsSpace(s[0]) then Emit(word) + SplitFrom(s[1..], [])
    else SplitFrom(s[1..], word + [s[0]])
  }

  /** Python's `s.split()`. */
  function Split(s: string): seq<string>
  {
    SplitFrom(s, [])
  }

  /** Python's `s.replace('  ', ' ')`: non-overlapping pairs, left to right. */
  function ReplaceDoubleSpace(s: string): string
    decreases |s|
  {
    if |s| >= 2 && s[0] == ' ' && s[1] == ' ' then [' '] + ReplaceDoubleSpace(s[2..])
    else if s == [] then []
    else [s[0]] + ReplaceDoubleSpace(s[1..])
  }

  /** Python's `s.endswith(suffix)`. */
  predicate EndsWith(s: string, suffix: string)
  {
    |suffix| <= |s| && s[|s| - |suffix|..] == suffix
  }

  /** Fields joined by single spaces: the inverse that `Split` undoes. */
  function Join(fields: seq<string>): string
    decreases |fields|
  {
    if fields == [] then []
    else if |fields| == 1 then fields[0]
    else fields[0] + " " + Join(fields[1..])
  }

  /** The non-whitespace characters of `s`, in order. */
  function NonSpace(s: string): string
    decreases |s|
  {
    if s == [] then [] else (if IsSpace(s[0]) then [] else [s[0]]) + NonSpace(s[1..])
  }

  function Concat(ws: seq<string>): string
    decreases |ws|
  {
    if ws == [] then [] else ws[0] + Concat(ws[1..])
  }

  lemma ConcatAppend(a: seq<string>, b: seq<string>)
    ensures Concat(a + b) == Concat(a) + Concat(b)
    decreases |a|
  {
    if a == [] {
      assert a + b == b;
    } else {
      assert (a + b)[0] == a[0];
      assert (a + b)[1..] == a[1..] + b;
      ConcatAppend(a[1..], b);
    }
  }

  /** Every field `split()` yields is non-empty and holds no whitespace. */
  lemma {:induction false} SplitFromFields(s: string, word: string)
    requires NoSpace(word)
    ensures forall i :: 0 <= i < |SplitFrom(s, word)| ==> IsField(SplitFrom(s, word)[i])
    decreases |s|
  {
    if s == [] {
    } else if IsSpace(s[0]) {
      SplitFromFields(s[1..], []);
    } else {
      SplitFromFields(s[1..], word + [s[0]]);
    }
  }

  lemma SplitFields(s: string)
    ensures forall i :: 0 <= i < |Split(s)| ==> IsField(Split(s)[i])
  {
    SplitFromFields(s, []);
  }

  /** `split()` loses exactly the whitespace: the fields spell out the rest of `s`. */
  lemma {:induction false} SplitFromKeepsText(s: string, word: string)
    ensures Concat(SplitFrom(s, word)) == word + NonSpace(s)
    decreases |s|
  {
    if s == [] {
      assert word + [] == word;
    } else if IsSpace(s[0]) {
      SplitFromKeepsText(s[1..], []);
      ConcatAppend(Emit(word), SplitFrom(s[1..], []));
    } else {
      SplitFromKeepsText(s[1..], word + [s[0]]);
      assert word + [s[0]] + NonSpace(s[1..]) == word + ([s[0]] + NonSpace(s[1..]));
    }
  }

  lemma SplitKeepsText(s: string)
    ensures Concat(Split(s)) == NonSpace(s)
  {
    SplitFromKeepsText(s, []);
  }

  /** Collecting a whitespace-free run `w` is the same as starting with it. */
  lemma {:induction false} SplitFromWord(w: string, rest: string, word: string)
    requires NoSpace(w)
    ensures SplitFrom(w + rest, word) == SplitFrom(rest, word + w)
    decreases |w|
  {
    if w == [] {
      assert w + rest == rest;
      assert word + w == word;
    } else {
      assert (w + rest)[0] == w[0];
      assert (w + rest)[1..] == w[1..] + rest;
      SplitFromWord(w[1..], rest, word + [w[0]]);
      assert word + [w[0]] + w[1..] == word + w;
    }
  }

  /** Round trip: splitting fields joined by single spaces gives the fields back. */
  lemma {:induction false} SplitJoin(fields: seq<string>)
    requires forall i :: 0 <= i < |fields| ==> IsField(fields[i])
    ensures Split(Join(fields)) == fields
    decreases |fields|
  {
    if fields == [] {
    } else if |fields| == 1 {
      SplitFromWord(fields[0], [], []);
      assert fields[0] + [] == fields[0];
      assert [] + fields[0] == fields[0];
    } else {
      var tail := Join(fields[1..]);
      assert fields[0] + " " + tail == fields[0] + (" " + tail);
      SplitFromWord(fields[0], " " + tail, []);
      assert [] + fields[0] == fields[0];
      assert (" " + tail)[1..] == tail;
      SplitJoin(fields[1..]);
      assert [fields[0]] + fields[1..] == fields;
    }
  }

  /** Leading whitespace is dropped when no field is being collected. */
  lemma SplitFromSpace(c: char, rest: string)
    requires IsSpace(c)
    ensures SplitFrom([c] + rest, []) == SplitFrom(rest, [])
  {
  }

  /** Whitespace at the end (the line's newline) adds no field. */
  lemma {:induction false} SplitFromTrailingSpace(s: string, c: char, word: string)
    requires IsSpace(c)
    ensures SplitFrom(s + [c], word) == SplitFrom(s, word)
    decreases |s|
  {
    if s == [] {
      assert s + [c] == [c];
      assert [c][1..] == [];
    } else {
      assert (s + [c])[0] == s[0];
      assert (s + [c])[1..] == s[1..] + [c];
      SplitFromTrailingSpace(s[1..], c, []);
      SplitFromTrailingSpace(s[1..], c, word + [s[0]]);
    }
  }

  lemma SplitTrailingSpace(s: string, c: char)
    requires IsSpace(c)
    ensures Split(s + [c]) == Split(s)
  {
    SplitFromTrailingSpace(s, c, []);
  }

  /** Collapsing double spaces before `split()` changes nothing about its fields. */
  lemma {:induction false} SplitFromReplace(s: string, word: string)
    ensures SplitFrom(ReplaceDoubleSpace(s), word) == SplitFrom(s, word)
    decreases |s|
  {
    if |s| >= 2 && s[0] == ' ' && s[1] == ' ' {
      var r := ReplaceDoubleSpace(s[2..]);
      assert ReplaceDoubleSpace(s) == [' '] + r;
      assert ([' '] + r)[1..] == r;
      SplitFromReplace(s[2..], []);
      assert s[1..] == [s[1]] + s[2..];
      SplitFromSpace(' ', s[2..]);
    } else if s == [] {
    } else {
      var r := ReplaceDoubleSpace(s[1..]);
      assert ReplaceDoubleSpace(s) == [s[0]] + r;
      assert ([s[0]] + r)[0] == s[0];
      assert ([s[0]] + r)[1..] == r;
      SplitFromReplace(s[1..], []);
      SplitFromReplace(s[1..], word + [s[0]]);
    }
  }

  lemma SplitReplace(s: string)
    ensures Split(ReplaceDoubleSpace(s)) == Split(s)
  {
    SplitFromReplace(s, []);
  }
}
