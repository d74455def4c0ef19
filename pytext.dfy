/** The Python string operations the drivers parse output with:
    `s.split(sep)` for a one-character separator, `sub in s`, and
    `s.strip()` with no argument. */
module PyText {

  /** str.isspace() for one character: the ASCII whitespace and separator
      controls and the Unicode space separators. */
  predicate IsPySpace(c: char)
  {
    || c == ' ' || c == '\t' || c == '\n' || c == '\r' || c == '\U{000B}' || c == '\U{000C}'
    || ('\U{001C}' <= c <= '\U{001F}')
    || c == '\U{0085}' || c == '\U{00A0}' || c == '\U{1680}'
    || ('\U{2000}' <= c <= '\U{200A}')
    || c == '\U{2028}' || c == '\U{2029}' || c == '\U{202F}' || c == '\U{205F}' || c == '\U{3000}'
  }

  /** The index of the first occurrence of c in s. */
  function IndexOf(s: string, c: char): (k: nat)
    requires c in s
    ensures k < |s| && s[k] == c
  {
    if s[0] == c then 0 else 1 + IndexOf(s[1..], c)
  }

  /** s.split(sep): the pieces between consecutive separators, from the
      start to the end of s (so k separators give k + 1 pieces, empty ones
      included). */
  function Split(s: string, sep: char): (parts: seq<string>)
    ensures |parts| >= 1
    decreases |s|
  {
    if sep !in s then [s]
    else
      var k := IndexOf(s, sep);
      [s[..k]] + Split(s[k + 1..], sep)
  }

  /** sep.join(parts). */
  function Join(parts: seq<string>, sep: char): string
    requires |parts| >= 1
  {
    if |parts| == 1 then parts[0] else parts[0] + [sep] + Join(parts[1..], sep)
  }

  /** Joining the pieces gives back the string. */
  lemma {:induction false} JoinSplit(s: string, sep: char)
    ensures Join(Split(s, sep), sep) == s
    decreases |s|
  {
    if sep in s {
      var k := IndexOf(s, sep);
      JoinFront(s[..k], Split(s[k + 1..], sep), sep);
      JoinSplit(s[k + 1..], sep);
      assert s == s[..k] + [sep] + s[k + 1..];
    }
  }

  /** Joining a piece in front of at least one more. */
  lemma JoinFront(head: string, tail: seq<string>, sep: char)
    requires |tail| >= 1
    ensures Join([head] + tail, sep) == head + [sep] + Join(tail, sep)
  {
    assert ([head] + tail)[1..] == tail;
  }

  /** No character before IndexOf(s, c) is c. */
  lemma {:induction false} IndexOfIsFirst(s: string, c: char)
    requires c in s
    ensures forall j :: 0 <= j < IndexOf(s, c) ==> s[j] != c
  {
    if s[0] != c {
      assert c in s[1..] by {
        var j :| 0 <= j < |s| && s[j] == c;
        assert s[1..][j - 1] == c;
      }
      IndexOfIsFirst(s[1..], c);
      assert forall j :: 1 <= j < |s| ==> s[1..][j - 1] == s[j];
    }
  }

  /** The first separator in head + [sep] + rest is the one after head. */
  lemma {:induction false} IndexOfAfter(head: string, rest: string, sep: char)
    requires sep !in head
    ensures IndexOf(head + [sep] + rest, sep) == |head|
    decreases |head|
  {
    var s := head + [sep] + rest;
    if |head| > 0 {
      assert s[0] == head[0] != sep;
      assert s[1..] == head[1..] + [sep] + rest;
      IndexOfAfter(head[1..], rest, sep);
    }
  }

  /** No piece of s.split(sep) contains sep. */
  lemma {:induction false} SplitPiecesFree(s: string, sep: char)
    ensures forall i :: 0 <= i < |Split(s, sep)| ==> sep !in Split(s, sep)[i]
    decreases |s|
  {
    if sep in s {
      var k := IndexOf(s, sep);
      IndexOfIsFirst(s, sep);
      SplitPiecesFree(s[k + 1..], sep);
      assert sep !in s[..k];
    }
  }

  /** Splitting at a first separator: the piece before it, then the pieces
      of what follows. */
  lemma SplitAtFirst(head: string, rest: string, sep: char)
    requires sep !in head
    ensures Split(head + [sep] + rest, sep) == [head] + Split(rest, sep)
  {
    var s := head + [sep] + rest;
    IndexOfAfter(head, rest, sep);
    assert s[..|head|] == head;
    assert s[|head| + 1..] == rest;
  }

  /** The first piece ends at the first separator, or at the end. */
  lemma FirstPiece(head: string, rest: string, sep: char)
    requires sep !in head && (rest == [] || rest[0] == sep)
    ensures Split(head + rest, sep)[0] == head
  {
    if rest == [] {
      assert head + rest == head;
    } else {
      assert head + rest == head + [sep] + rest[1..];
      SplitAtFirst(head, rest[1..], sep);
    }
  }

  /** Splitting a join of separator-free pieces gives back the pieces. */
  lemma {:induction false} SplitJoin(parts: seq<string>, sep: char)
    requires |parts| >= 1 && forall i :: 0 <= i < |parts| ==> sep !in parts[i]
    ensures Split(Join(parts, sep), sep) == parts
  {
    if |parts| > 1 {
      var head := parts[0];
      var rest := Join(parts[1..], sep);
      var s := head + [sep] + rest;
      assert Join(parts, sep) == s;
      SplitAtFirst(head, rest, sep);
      SplitJoin(parts[1..], sep);
      assert parts == [head] + parts[1..];
    }
  }

  /** `sub in s`: sub occurs in s at some position. */
  predicate Contains(s: string, sub: string)
    decreases |s|
  {
    (|sub| <= |s| && s[..|sub|] == sub) || (|s| > 0 && Contains(s[1..], sub))
  }

  /** sub occurs in s starting at position i. */
  predicate OccursAt(s: string, sub: string, i: int)
  {
    0 <= i && i + |sub| <= |s| && s[i..i + |sub|] == sub
  }

  /** `sub in s` holds exactly when sub is a slice of s. */
  lemma {:induction false} ContainsAt(s: string, sub: string)
    ensures Contains(s, sub) <==> exists i :: OccursAt(s, sub, i)
    decreases |s|
  {
    if |sub| <= |s| && s[..|sub|] == sub {
      assert s[0..|sub|] == s[..|sub|];
      assert OccursAt(s, sub, 0);
    }
    if |s| > 0 {
      ContainsAt(s[1..], sub);
      if Contains(s[1..], sub) {
        var i :| OccursAt(s[1..], sub, i);
        assert s[1..][i..i + |sub|] == s[i + 1..i + 1 + |sub|];
        assert OccursAt(s, sub, i + 1);
      }
      if exists i :: OccursAt(s, sub, i) {
        var i :| OccursAt(s, sub, i);
        assert s[..|sub|] == sub || i > 0;
        if i > 0 {
          assert s[1..][i - 1..i - 1 + |sub|] == s[i..i + |sub|];
          assert OccursAt(s[1..], sub, i - 1);
        } else {
          assert s[..|sub|] == s[0..|sub|];
        }
      }
    } else {
      if exists i :: OccursAt(s, sub, i) {
        var i :| OccursAt(s, sub, i);
        assert i == 0 && |sub| == 0;
        assert s[..|sub|] == [] == sub;
      }
    }
  }

  /** A string lacking some character of sub does not contain sub. */
  lemma {:induction false} NotContainsWithoutChar(s: string, sub: string, c: char)
    requires c in sub && c !in s
    ensures !Contains(s, sub)
    decreases |s|
  {
    if |s| > 0 {
      NotContainsWithoutChar(s[1..], sub, c);
    }
  }

  /** A string that starts with sub contains it. */
  lemma ContainsPrefix(s: string, sub: string)
    requires |sub| <= |s| && s[..|sub|] == sub
    ensures Contains(s, sub)
  {
  }

  /** s without its leading whitespace. */
  function StripLeading(s: string): (t: string)
    ensures |t| <= |s| && t == s[|s| - |t|..]
    ensures forall i :: 0 <= i < |s| - |t| ==> IsPySpace(s[i])
    ensures |t| > 0 ==> !IsPySpace(t[0])
  {
    if |s| > 0 && IsPySpace(s[0]) then StripLeading(s[1..]) else s
  }

  /** s without its trailing whitespace. */
  function StripTrailing(s: string): (t: string)
    ensures |t| <= |s| && t == s[..|t|]
    ensures forall i :: |t| <= i < |s| ==> IsPySpace(s[i])
    ensures |t| > 0 ==> !IsPySpace(t[|t| - 1])
  {
    if |s| > 0 && IsPySpace(s[|s| - 1]) then StripTrailing(s[..|s| - 1]) else s
  }

  /** s.strip(): s without leading and trailing whitespace. */
  function Strip(s: string): string
  {
    StripTrailing(StripLeading(s))
  }

  /** No whitespace at either end of t. */
  predicate Trimmed(t: string)
  {
    |t| > 0 ==> !IsPySpace(t[0]) && !IsPySpace(t[|t| - 1])
  }

  predicate AllSpace(w: string)
  {
    forall i :: 0 <= i < |w| ==> IsPySpace(w[i])
  }

  /** strip() removes exactly the surrounding whitespace: its result is a
      slice of s with only whitespace cut off either side, and it has no
      whitespace at either end. */
  lemma StripIsTrimmedSlice(s: string)
    ensures Trimmed(Strip(s))
    ensures exists a, b :: 0 <= a <= b <= |s| && Strip(s) == s[a..b] && AllSpace(s[..a]) && AllSpace(s[b..])
  {
    var l := StripLeading(s);
    var t := Strip(s);
    var a := |s| - |l|;
    var b := a + |t|;
    assert t == s[a..b];
    assert AllSpace(s[..a]);
    assert AllSpace(s[b..]) by {
      forall i | b <= i < |s| ensures IsPySpace(s[i]) {
        assert s[i] == l[i - a];
      }
    }
    if |t| > 0 {
      assert t[0] == l[0];
    }
  }

  /** Conversely, whitespace around a trimmed string is what strip()
      removes. */
  lemma {:induction false} StripSurrounded(w1: string, t: string, w2: string)
    requires AllSpace(w1) && AllSpace(w2) && Trimmed(t)
    ensures Strip(w1 + t + w2) == t
  {
    var s := w1 + t + w2;
    if |t| > 0 {
      assert s == w1 + (t + w2);
      StripLeadingSpaces(w1, t + w2);
      StripTrailingSpaces(t, w2);
    } else {
      assert AllSpace(s) by {
        forall i | 0 <= i < |s| ensures IsPySpace(s[i]) {
          if i < |w1| { assert s[i] == w1[i]; } else { assert s[i] == w2[i - |w1|]; }
        }
      }
    }
  }

  lemma {:induction false} StripLeadingSpaces(w: string, r: string)
    requires AllSpace(w) && (|r| > 0 ==> !IsPySpace(r[0]))
    ensures StripLeading(w + r) == r
    decreases |w|
  {
    if |w| > 0 {
      assert (w + r)[1..] == w[1..] + r;
      StripLeadingSpaces(w[1..], r);
    }
  }

  lemma {:induction false} StripTrailingSpaces(r: string, w: string)
    requires AllSpace(w) && (|r| > 0 ==> !IsPySpace(r[|r| - 1]))
    ensures StripTrailing(r + w) == r
    decreases |w|
  {
    if |w| > 0 {
      assert (r + w)[..|r + w| - 1] == r + w[..|w| - 1];
      StripTrailingSpaces(r, w[..|w| - 1]);
    } else {
      assert r + w == r;
    }
  }
}
