/**
 The `StringArray` operations the project saver uses: `addTokens` with no quote
 characters, `trim`, `removeEmptyStrings` and `removeDuplicates`. The last one
 is stated generically as `Dedup`, "keep the first occurrence of every element",
 because the include resolver applies the same rule to (path, guard) pairs.
 */
module StringArray {
  import opened JuceText

  predicate NoBreaks(s: string, breaks: string) {
    forall k :: 0 <= k < |s| ==> s[k] !in breaks
  }

  /** The break characters of `s`, in order. */
  function BreaksIn(s: string, breaks: string): (seps: string)
    ensures forall k :: 0 <= k < |seps| ==> seps[k] in breaks
  {
    if |s| == 0 then []
    else (if s[0] in breaks then [s[0]] else []) + BreaksIn(s[1..], breaks)
  }

  /** Puts the separators back between the pieces. */
  function Rejoin(pieces: seq<string>, seps: string): string
    requires |pieces| == |seps| + 1
  {
    if |seps| == 0 then pieces[0] else pieces[0] + [seps[0]] + Rejoin(pieces[1..], seps[1..])
  }

  /**
   Splits `s` at every character of `breaks`: each break ends one piece and starts
   the next, so two breaks in a row give an empty piece.
   */
  function Split(s: string, breaks: string): (pieces: seq<string>)
    ensures |pieces| > 0
  {
    if |s| == 0 then [""]
    else
      var rest := Split(s[1..], breaks);
      if s[0] in breaks then [""] + rest
      else [[s[0]] + rest[0]] + rest[1..]
  }

  /** No piece of a split holds a break character. */
  lemma {:induction false} SplitPiecesHaveNoBreaks(s: string, breaks: string)
    ensures forall k :: 0 <= k < |Split(s, breaks)| ==> NoBreaks(Split(s, breaks)[k], breaks)
  {
    if |s| > 0 {
      SplitPiecesHaveNoBreaks(s[1..], breaks);
      var rest := Split(s[1..], breaks);
      if s[0] !in breaks {
        var first := [s[0]] + rest[0];
        forall i | 0 <= i < |first| ensures first[i] !in breaks {
          if i > 0 { assert first[i] == rest[0][i - 1]; }
        }
      }
    }
  }

  /** Rejoining after a character was glued to the first piece puts that character in front. */
  lemma {:induction false} RejoinGlued(ch: char, rest: seq<string>, seps: string)
    requires |rest| == |seps| + 1
    ensures Rejoin([[ch] + rest[0]] + rest[1..], seps) == [ch] + Rejoin(rest, seps)
  {
    var pieces := [[ch] + rest[0]] + rest[1..];
    if |seps| > 0 {
      assert pieces[1..] == rest[1..];
      var tail := Rejoin(rest[1..], seps[1..]);
      assert Rejoin(pieces, seps) == ([ch] + rest[0]) + [seps[0]] + tail;
      assert Rejoin(rest, seps) == rest[0] + [seps[0]] + tail;
    }
  }

  /** Rejoining after an empty piece was opened by the separator `ch` puts `ch` in front. */
  lemma {:induction false} RejoinOpened(ch: char, rest: seq<string>, seps: string)
    requires |rest| == |seps| + 1
    ensures Rejoin([""] + rest, [ch] + seps) == [ch] + Rejoin(rest, seps)
  {
    assert ([""] + rest)[1..] == rest;
    assert ([ch] + seps)[1..] == seps;
  }

  /** Split loses nothing: there is one more piece than separators, and rejoining them gives `s` back. */
  lemma {:induction false} SplitRejoin(s: string, breaks: string)
    ensures |Split(s, breaks)| == |BreaksIn(s, breaks)| + 1
    ensures Rejoin(Split(s, breaks), BreaksIn(s, breaks)) == s
  {
    if |s| > 0 {
      SplitRejoin(s[1..], breaks);
      var rest := Split(s[1..], breaks);
      var seps := BreaksIn(s[1..], breaks);
      assert [s[0]] + s[1..] == s;
      if s[0] !in breaks {
        assert BreaksIn(s, breaks) == seps;
        RejoinGlued(s[0], rest, seps);
      } else {
        assert BreaksIn(s, breaks) == [s[0]] + seps;
        RejoinOpened(s[0], rest, seps);
      }
    }
  }

  /** A string with no break character is a single piece. */
  lemma {:induction false} SplitNoBreaks(s: string, breaks: string)
    requires NoBreaks(s, breaks)
    ensures Split(s, breaks) == [s]
  {
    if |s| > 0 {
      SplitNoBreaks(s[1..], breaks);
      assert [s[0]] + s[1..] == s;
    }
  }

  /** What one more leading character does to the pieces of the rest: a break opens an empty piece, anything else joins the first piece. */
  function PushChar(ch: char, breaks: string, pieces: seq<string>): (r: seq<string>)
    requires |pieces| > 0
    ensures |r| > 0
  {
    if ch in breaks then [""] + pieces else [[ch] + pieces[0]] + pieces[1..]
  }

  lemma {:induction false} SplitCons(ch: char, s: string, breaks: string)
    ensures Split([ch] + s, breaks) == PushChar(ch, breaks, Split(s, breaks))
  {
    assert ([ch] + s)[0] == ch && ([ch] + s)[1..] == s;
  }

  /** A leading character only touches the first pieces. */
  lemma {:induction false} PushCharConcat(ch: char, breaks: string, a: seq<string>, b: seq<string>)
    requires |a| > 0
    ensures PushChar(ch, breaks, a + b) == PushChar(ch, breaks, a) + b
  {
    if ch !in breaks {
      assert (a + b)[0] == a[0];
      assert (a + b)[1..] == a[1..] + b;
    }
  }

  /** A break character between two texts splits them independently. */
  lemma {:induction false} SplitAtBreak(x: string, c: char, y: string, breaks: string)
    requires c in breaks
    ensures Split(x + ([c] + y), breaks) == Split(x, breaks) + Split(y, breaks)
  {
    if |x| == 0 {
      assert x + ([c] + y) == [c] + y;
      SplitCons(c, y, breaks);
    } else {
      var rest := x[1..];
      var t := rest + ([c] + y);
      SplitAtBreak(rest, c, y, breaks);
      assert x + ([c] + y) == [x[0]] + t;
      assert x == [x[0]] + rest;
      SplitCons(x[0], t, breaks);
      SplitCons(x[0], rest, breaks);
      PushCharConcat(x[0], breaks, Split(rest, breaks), Split(y, breaks));
    }
  }

  /** StringArray::addTokens with no quote characters: nothing for "", otherwise every piece of the split. */
  function AddTokens(text: string, breaks: string): seq<string>
  {
    if |text| == 0 then [] else Split(text, breaks)
  }

  /** StringArray::trim: every element trimmed. */
  function TrimAll(a: seq<string>): seq<string>
  {
    seq(|a|, k requires 0 <= k < |a| => Trim(a[k]))
  }

  /** StringArray::removeEmptyStrings: the non-empty elements, in their order. */
  function RemoveEmptyStrings(a: seq<string>): (r: seq<string>)
    ensures |r| <= |a|
    ensures forall k :: 0 <= k < |r| ==> r[k] != ""
    ensures forall x :: x in r <==> x in a && x != ""
  {
    if |a| == 0 then []
    else (if a[0] == "" then [] else [a[0]]) + RemoveEmptyStrings(a[1..])
  }

  /** removeEmptyStrings works piecewise on a concatenation. */
  lemma {:induction false} RemoveEmptyStringsConcat(a: seq<string>, b: seq<string>)
    ensures RemoveEmptyStrings(a + b) == RemoveEmptyStrings(a) + RemoveEmptyStrings(b)
  {
    if |a| > 0 {
      RemoveEmptyStringsConcat(a[1..], b);
      assert (a + b)[1..] == a[1..] + b;
    } else {
      assert a + b == b;
    }
  }

  /** Nothing is removed when there is nothing empty. */
  lemma {:induction false} RemoveEmptyStringsKeepsNonEmpty(a: seq<string>)
    requires forall k :: 0 <= k < |a| ==> a[k] != ""
    ensures RemoveEmptyStrings(a) == a
  {
    if |a| > 0 {
      RemoveEmptyStringsKeepsNonEmpty(a[1..]);
      assert [a[0]] + a[1..] == a;
    }
  }

  /** The trimmed text is a slice of the original: what is left after the leading whitespace, cut short. */
  lemma {:induction false} TrimIsSlice(p: string)
    ensures var a := LeadingSpace(p);
            a + |Trim(p)| <= |p| && Trim(p) == p[a..a + |Trim(p)|]
  {
    var a := LeadingSpace(p);
    var t := p[a..];
    assert Trim(p) == t[..|t| - TrailingSpace(t)];
  }

  /** Trimming adds no character, so it adds no break character. */
  lemma {:induction false} TrimKeepsNoBreaks(piece: string, breaks: string)
    requires NoBreaks(piece, breaks)
    ensures NoBreaks(Trim(piece), breaks)
  {
    var x := Trim(piece);
    TrimIsSlice(piece);
    var a := LeadingSpace(piece);
    forall i | 0 <= i < |x| ensures x[i] !in breaks {
      assert piece[a + i] !in breaks;
    }
  }

  /** Every trimmed piece of a split is trimmed and holds no break character. */
  lemma {:induction false} TrimmedPieceClean(text: string, breaks: string, k: nat)
    requires k < |AddTokens(text, breaks)|
    ensures IsTrimmed(TrimAll(AddTokens(text, breaks))[k])
    ensures NoBreaks(TrimAll(AddTokens(text, breaks))[k], breaks)
  {
    var piece := AddTokens(text, breaks)[k];
    SplitPiecesHaveNoBreaks(text, breaks);
    assert piece == Split(text, breaks)[k];
    TrimKeepsNoBreaks(piece, breaks);
  }

  /**
   The tokenising idiom of the saver: addTokens, then trim, then removeEmptyStrings.
   Every token is non-empty, free of break characters and of surrounding whitespace.
   */
  function Tokenise(text: string, breaks: string): (tokens: seq<string>)
    ensures forall k :: 0 <= k < |tokens| ==> tokens[k] != "" && IsTrimmed(tokens[k])
    ensures forall k :: 0 <= k < |tokens| ==> NoBreaks(tokens[k], breaks)
  {
    var trimmed := TrimAll(AddTokens(text, breaks));
    forall x | x in trimmed ensures IsTrimmed(x) && NoBreaks(x, breaks) {
      var k :| 0 <= k < |trimmed| && trimmed[k] == x;
      TrimmedPieceClean(text, breaks, k);
    }
    RemoveEmptyStrings(trimmed)
  }

  /** Index of the first occurrence of `x` in `s`. */
  function FirstIndex<T(==)>(s: seq<T>, x: T): (k: nat)
    requires x in s
    ensures k < |s| && s[k] == x && x !in s[..k]
  {
    if s[0] == x then 0
    else
      var k := 1 + FirstIndex(s[1..], x);
      assert s[..k] == [s[0]] + s[1..][..k - 1];
      k
  }

  /** The elements of `s` from position `from` on that do not occur before their own position. */
  function DedupFrom<T(==)>(s: seq<T>, from: nat): (r: seq<T>)
    requires from <= |s|
    ensures forall k :: 0 <= k < |r| ==> r[k] in s
    decreases |s| - from
  {
    if from == |s| then []
    else (if s[from] in s[..from] then [] else [s[from]]) + DedupFrom(s, from + 1)
  }

  /** StringArray::removeDuplicates (case-sensitive): keeps the first occurrence of every element. */
  function Dedup<T(==)>(s: seq<T>): (r: seq<T>)
    ensures forall k :: 0 <= k < |r| ==> r[k] in s
  {
    DedupFrom(s, 0)
  }

  /** Membership in DedupFrom: exactly the first occurrences at or after `from`. */
  lemma {:induction false} DedupFromMember<T>(s: seq<T>, from: nat, x: T)
    requires from <= |s|
    ensures x in DedupFrom(s, from) <==> exists k :: from <= k < |s| && s[k] == x && x !in s[..k]
    decreases |s| - from
  {
    if from < |s| {
      DedupFromMember(s, from + 1, x);
    }
  }

  /** An element kept from position `from` on never occurs before `from`. */
  lemma {:induction false} DedupFromFresh<T>(s: seq<T>, from: nat, x: T)
    requires from <= |s|
    requires x in DedupFrom(s, from)
    ensures x !in s[..from]
  {
    DedupFromMember(s, from, x);
    var k :| from <= k < |s| && s[k] == x && x !in s[..k];
    assert s[..from] == s[..k][..from];
  }

  /** A position holding `x` with no earlier `x` is the first index of `x`. */
  lemma {:induction false} FirstIndexUnique<T>(s: seq<T>, x: T, k: nat)
    requires k < |s| && s[k] == x && x !in s[..k]
    ensures FirstIndex(s, x) == k
  {
  }

  /** An element kept from position `from` on first occurs at or after `from`. */
  lemma {:induction false} DedupFromFirstIndex<T>(s: seq<T>, from: nat, x: T)
    requires from <= |s| && x in DedupFrom(s, from)
    ensures FirstIndex(s, x) >= from
  {
    DedupFromMember(s, from, x);
    var k :| from <= k < |s| && s[k] == x && x !in s[..k];
    FirstIndexUnique(s, x, k);
  }

  /** The first occurrences from `from` on appear in order of position. */
  lemma {:induction false} DedupFromOrdered<T>(s: seq<T>, from: nat)
    requires from <= |s|
    ensures forall a, b :: 0 <= a < b < |DedupFrom(s, from)| ==>
              FirstIndex(s, DedupFrom(s, from)[a]) < FirstIndex(s, DedupFrom(s, from)[b])
    decreases |s| - from
  {
    if from < |s| {
      DedupFromOrdered(s, from + 1);
      var r := DedupFrom(s, from);
      var rest := DedupFrom(s, from + 1);
      if s[from] !in s[..from] {
        assert r == [s[from]] + rest;
        FirstIndexUnique(s, s[from], from);
        forall a, b | 0 <= a < b < |r| ensures FirstIndex(s, r[a]) < FirstIndex(s, r[b]) {
          assert r[b] == rest[b - 1];
          if a > 0 {
            assert r[a] == rest[a - 1];
          } else {
            DedupFromFirstIndex(s, from + 1, rest[b - 1]);
          }
        }
      } else {
        assert r == rest;
      }
    }
  }

  /** Dedup keeps exactly the elements of `s`. */
  lemma {:induction false} DedupMembers<T>(s: seq<T>)
    ensures forall x :: x in Dedup(s) <==> x in s
  {
    forall x ensures x in Dedup(s) <==> x in s {
      DedupFromMember(s, 0, x);
      if x in s {
        var k := FirstIndex(s, x);
        assert 0 <= k < |s| && s[k] == x && x !in s[..k];
      }
    }
  }

  /** Dedup keeps every element once, in the order of first occurrence. */
  lemma {:induction false} DedupFirstOccurrenceOrder<T>(s: seq<T>)
    ensures forall a, b :: 0 <= a < b < |Dedup(s)| ==> FirstIndex(s, Dedup(s)[a]) < FirstIndex(s, Dedup(s)[b])
    ensures forall a, b :: 0 <= a < b < |Dedup(s)| ==> Dedup(s)[a] != Dedup(s)[b]
  {
    DedupFromOrdered(s, 0);
  }

  /** The result of Dedup has exactly one element iff `s` is non-empty and all its elements are equal. */
  lemma {:induction false} DedupSingleton<T>(s: seq<T>)
    ensures |Dedup(s)| == 1 <==> |s| > 0 && forall k :: 0 <= k < |s| ==> s[k] == s[0]
  {
    var r := Dedup(s);
    DedupMembers(s);
    DedupFirstOccurrenceOrder(s);
    if |r| == 1 {
      forall k | 0 <= k < |s| ensures s[k] == s[0] {
        assert s[k] in r && s[0] in r;
      }
    }
    if |s| > 0 && forall k :: 0 <= k < |s| ==> s[k] == s[0] {
      assert s[0] in r;
      assert forall i :: 0 <= i < |r| ==> r[i] == s[0];
      assert |r| >= 2 ==> r[0] == r[1];
    }
  }
}
