/** String helpers shared by the backend and the front end.

    `Split` and `Join` are splitting at, and joining with, a one-character
    separator, which behaves the same in Python (`str.split`, `str.join`) and
    in JavaScript (`String.prototype.split`, `Array.prototype.join`): a split
    always yields at least one piece, and the empty string yields `[""]`.

    `Trim` removes leading and trailing whitespace, as Python's `str.strip()`
    and JavaScript's `String.prototype.trim()` do for ASCII whitespace. */
module Text {

  const NewLine: char := '\n'

  predicate IsSpace(c: char) {
    c == ' ' || c == '\t' || c == '\n' || c == '\r' || c == '\U{B}' || c == '\U{C}'
  }

  /** No whitespace at either end. */
  predicate IsTrimmed(s: string) {
    s == [] || (!IsSpace(s[0]) && !IsSpace(s[|s| - 1]))
  }

  /** The pieces of `s` between occurrences of `sep`. */
  function Split(s: string, sep: char): (pieces: seq<string>)
    ensures |pieces| >= 1
    ensures forall i :: 0 <= i < |pieces| ==> sep !in pieces[i]
    decreases |s|
  {
    if s == [] then [""]
    else
      var rest := Split(s[1..], sep);
      if s[0] == sep then [""] + rest
      else [[s[0]] + rest[0]] + rest[1..]
  }

  /** The pieces written one after another with `sep` between neighbours. */
  function Join(pieces: seq<string>, sep: char): string
  {
    if pieces == [] then ""
    else if |pieces| == 1 then pieces[0]
    else pieces[0] + [sep] + Join(pieces[1..], sep)
  }

  /** Splitting and joining again gives back the text exactly. */
  lemma {:induction false} JoinSplit(s: string, sep: char)
    ensures Join(Split(s, sep), sep) == s
    decreases |s|
  {
    if s != [] {
      JoinSplit(s[1..], sep);
      var rest := Split(s[1..], sep);
      if s[0] == sep {
        assert Split(s, sep) == [""] + rest;
        assert ([""] + rest)[1..] == rest;
        assert s == [sep] + s[1..];
      } else {
        var head := [s[0]] + rest[0];
        assert Split(s, sep) == [head] + rest[1..];
        if |rest| == 1 {
          assert s == [s[0]] + s[1..];
        } else {
          assert ([head] + rest[1..])[1..] == rest[1..];
          assert Join(rest, sep) == rest[0] + [sep] + Join(rest[1..], sep);
          assert s == [s[0]] + s[1..];
        }
      }
    }
  }

  /** A leading piece that holds no separator stays one piece. */
  lemma {:induction false} SplitPrefix(a: string, tail: string, sep: char)
    requires sep !in a
    ensures Split(a + tail, sep) == [a + Split(tail, sep)[0]] + Split(tail, sep)[1..]
    decreases |a|
  {
    if a == [] {
      var x := Split(tail, sep);
      assert a + x[0] == x[0];
      assert x == [x[0]] + x[1..];
      assert a + tail == tail;
    } else {
      var x := Split(tail, sep);
      var s := a + tail;
      assert s[0] == a[0] != sep;
      assert s[1..] == a[1..] + tail;
      SplitPrefix(a[1..], tail, sep);
      var rest := Split(s[1..], sep);
      assert rest == [a[1..] + x[0]] + x[1..];
      assert Split(s, sep) == [[s[0]] + rest[0]] + rest[1..];
      assert [a[0]] + (a[1..] + x[0]) == a + x[0];
    }
  }

  /** Joining pieces that hold no separator and splitting again gives back the pieces. */
  lemma {:induction false} SplitJoin(pieces: seq<string>, sep: char)
    requires |pieces| >= 1
    requires forall i :: 0 <= i < |pieces| ==> sep !in pieces[i]
    ensures Split(Join(pieces, sep), sep) == pieces
    decreases |pieces|
  {
    if |pieces| == 1 {
      SplitPrefix(pieces[0], "", sep);
      assert pieces[0] + "" == pieces[0];
    } else {
      var j := Join(pieces[1..], sep);
      SplitJoin(pieces[1..], sep);
      assert Split([sep] + j, sep) == [""] + pieces[1..];
      SplitPrefix(pieces[0], [sep] + j, sep);
      assert pieces[0] + [sep] + j == pieces[0] + ([sep] + j);
      assert pieces[0] + "" == pieces[0];
      assert pieces == [pieces[0]] + pieces[1..];
    }
  }

  /** Joining a non-empty list followed by one more piece. */
  lemma {:induction false} JoinAppend(pieces: seq<string>, last: string, sep: char)
    requires pieces != []
    ensures Join(pieces + [last], sep) == Join(pieces, sep) + [sep] + last
    decreases |pieces|
  {
    if |pieces| == 1 {
      assert pieces + [last] == [pieces[0], last];
    } else {
      JoinAppend(pieces[1..], last, sep);
      assert (pieces + [last])[1..] == pieces[1..] + [last];
    }
  }

  /** The first `n` pieces of a text that starts with the separator: an empty
      piece, then the first `n - 1` pieces of the rest. */
  lemma JoinAfterSep(s: string, sep: char, n: nat)
    requires s != [] && s[0] == sep
    requires 2 <= n <= |Split(s, sep)|
    ensures Join(Split(s, sep)[..n], sep) == [sep] + Join(Split(s[1..], sep)[..n - 1], sep)
  {
    var rest := Split(s[1..], sep);
    assert Split(s, sep)[..n] == [""] + rest[..n - 1];
    assert ([""] + rest[..n - 1])[1..] == rest[..n - 1];
  }

  /** The first `n` pieces of a text that starts with another character: that
      character glued to the first `n` pieces of the rest. */
  lemma JoinAfterChar(s: string, sep: char, n: nat)
    requires s != [] && s[0] != sep
    requires 1 <= n <= |Split(s, sep)|
    ensures Join(Split(s, sep)[..n], sep) == [s[0]] + Join(Split(s[1..], sep)[..n], sep)
  {
    var rest := Split(s[1..], sep);
    var head := [s[0]] + rest[0];
    assert Split(s, sep)[..n] == [head] + rest[1..n];
    if n == 1 {
      assert rest[..1] == [rest[0]];
    } else {
      assert rest[..n] == [rest[0]] + rest[1..n];
      assert ([head] + rest[1..n])[1..] == rest[1..n];
      assert ([rest[0]] + rest[1..n])[1..] == rest[1..n];
    }
  }

  /** The joined prefix of the pieces of `s` is a prefix of `s`. */
  lemma {:induction false} JoinedPiecesArePrefix(s: string, sep: char, n: nat)
    requires n <= |Split(s, sep)|
    ensures |Join(Split(s, sep)[..n], sep)| <= |s|
    ensures Join(Split(s, sep)[..n], sep) == s[..|Join(Split(s, sep)[..n], sep)|]
    decreases |s|
  {
    var pieces := Split(s, sep);
    if n == 0 {
      assert pieces[..0] == [];
    } else if s == [] {
      assert pieces[..n] == [""];
    } else if s[0] == sep && n == 1 {
      assert pieces[..1] == [""];
    } else {
      var m := if s[0] == sep then n - 1 else n;
      JoinedPiecesArePrefix(s[1..], sep, m);
      var p := Join(Split(s[1..], sep)[..m], sep);
      if s[0] == sep {
        JoinAfterSep(s, sep, n);
      } else {
        JoinAfterChar(s, sep, n);
      }
      assert [s[0]] + p == s[..|p| + 1];
    }
  }

  /** The number of whitespace characters `s` starts with. */
  function LeadingSpaces(s: string): (n: nat)
    ensures n <= |s|
    ensures n < |s| ==> !IsSpace(s[n])
  {
    if s != [] && IsSpace(s[0]) then 1 + LeadingSpaces(s[1..]) else 0
  }

  /** The number of whitespace characters `s` ends with. */
  function TrailingSpaces(s: string): (n: nat)
    ensures n <= |s|
    ensures n < |s| ==> !IsSpace(s[|s| - 1 - n])
  {
    if s != [] && IsSpace(s[|s| - 1]) then 1 + TrailingSpaces(s[..|s| - 1]) else 0
  }

  /** Every character counted by `LeadingSpaces` is whitespace. */
  lemma {:induction false} LeadingAreSpaces(s: string)
    ensures forall k :: 0 <= k < LeadingSpaces(s) ==> IsSpace(s[k])
  {
    if s != [] && IsSpace(s[0]) {
      LeadingAreSpaces(s[1..]);
      forall k | 1 <= k < LeadingSpaces(s) ensures IsSpace(s[k]) {
        assert s[k] == s[1..][k - 1];
      }
    }
  }

  /** Every character counted by `TrailingSpaces` is whitespace. */
  lemma {:induction false} TrailingAreSpaces(s: string)
    ensures forall k :: |s| - TrailingSpaces(s) <= k < |s| ==> IsSpace(s[k])
  {
    if s != [] && IsSpace(s[|s| - 1]) {
      TrailingAreSpaces(s[..|s| - 1]);
      forall k | |s| - TrailingSpaces(s) <= k < |s| - 1 ensures IsSpace(s[k]) {
        assert s[k] == s[..|s| - 1][k];
      }
    }
  }

  /** `s` without its leading and trailing whitespace. */
  function Trim(s: string): (r: string)
    ensures IsTrimmed(r)
    ensures |r| <= |s|
  {
    var t := s[LeadingSpaces(s)..];
    var r := t[..|t| - TrailingSpaces(t)];
    assert r != [] ==> r[0] == t[0] == s[LeadingSpaces(s)];
    r
  }

  /** The trim is a slice of `s`: what it leaves out at either end is all whitespace.
      With `IsTrimmed` this fixes the result: the widest such slice. */
  lemma TrimRemovesSurroundingSpace(s: string)
    ensures exists i, j :: (0 <= i <= j <= |s| && Trim(s) == s[i..j] &&
      (forall k :: 0 <= k < i ==> IsSpace(s[k])) && (forall k :: j <= k < |s| ==> IsSpace(s[k])))
  {
    var n := LeadingSpaces(s);
    var t := s[n..];
    var m := |t| - TrailingSpaces(t);
    LeadingAreSpaces(s);
    TrailingAreSpaces(t);
    forall k | n + m <= k < |s| ensures IsSpace(s[k]) {
      assert s[k] == t[k - n];
    }
    assert Trim(s) == s[n..n + m];
  }

  /** Trimming only removes characters: one absent from `s` is absent from its trim. */
  lemma TrimKeepsOut(s: string, c: char)
    requires c !in s
    ensures c !in Trim(s)
  {
    var n := LeadingSpaces(s);
    var t := s[n..];
    var r := t[..|t| - TrailingSpaces(t)];
    forall i | 0 <= i < |r| ensures r[i] != c {
      assert r[i] == t[i] == s[n + i];
    }
  }

  /** The trim is empty exactly when `s` is all whitespace. */
  lemma TrimBlank(s: string)
    ensures Trim(s) == [] <==> forall k :: 0 <= k < |s| ==> IsSpace(s[k])
  {
    var n := LeadingSpaces(s);
    var t := s[n..];
    var r := t[..|t| - TrailingSpaces(t)];
    if r != [] {
      assert r[0] == s[n];
    } else {
      TrailingAreSpaces(t);
      LeadingAreSpaces(s);
    }
  }

  /** Trimming leaves a trimmed string alone, so trimming twice is trimming once. */
  lemma TrimTrimmed(s: string)
    requires IsTrimmed(s)
    ensures Trim(s) == s
  {
  }
}
