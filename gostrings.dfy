/**
 The part of Go's `strings` package that the forwarded-URL construction
 relies on: `strings.Split` with a non-empty separator, the first element of
 its result (`FirstSplit`, i.e. `strings.Split(s, sep)[0]`) and
 `strings.Join`, which undoes a split.
 */
module GoStrings {

  /** `sep` occurs in `s` starting at index `i`. */
  predicate OccursAt(s: string, sep: string, i: nat)
  {
    i + |sep| <= |s| && s[i..i + |sep|] == sep
  }

  /** Go's `strings.Contains(s, sep)`. */
  predicate Contains(s: string, sep: string)
  {
    exists i: nat | i <= |s| :: OccursAt(s, sep, i)
  }

  /** No occurrence of `sep` in `s` starts before index `k`. */
  predicate NoOccurrenceBefore(s: string, sep: string, k: nat)
  {
    forall j: nat :: j < k ==> !OccursAt(s, sep, j)
  }

  /** Occurrences in `s[1..]` are the occurrences in `s` shifted by one. */
  lemma OccursAtTail(s: string, sep: string, j: nat)
    requires |s| > 0
    ensures OccursAt(s[1..], sep, j) <==> OccursAt(s, sep, j + 1)
  {
  }

  /** An occurrence inside a prefix of `s` is an occurrence in `s`. */
  lemma OccursAtPrefix(s: string, sep: string, k: nat, j: nat)
    requires k <= |s| && OccursAt(s[..k], sep, j)
    ensures OccursAt(s, sep, j)
  {
  }

  /**
   `strings.Split(s, sep)[0]`: the part of `s` before the first occurrence of
   `sep`, or all of `s` when `sep` does not occur in it.
   */
  function FirstSplit(s: string, sep: string): (r: string)
    requires |sep| > 0
    ensures |r| <= |s| && r == s[..|r|]
    ensures NoOccurrenceBefore(s, sep, |r|)
    ensures r == s || OccursAt(s, sep, |r|)
    decreases |s|
  {
    if |s| < |sep| then s
    else if s[..|sep|] == sep then ""
    else
      var r := [s[0]] + FirstSplit(s[1..], sep);
      assert NoOccurrenceBefore(s, sep, |r|) by {
        forall j: nat | j < |r| ensures !OccursAt(s, sep, j) {
          if j > 0 { OccursAtTail(s, sep, j - 1); }
        }
      }
      assert r != s ==> OccursAt(s, sep, |r|) by {
        OccursAtTail(s, sep, |r| - 1);
      }
      r
  }

  /** The prefix chosen by `FirstSplit` never contains the separator. */
  lemma FirstSplitNoSeparator(s: string, sep: string)
    requires |sep| > 0
    ensures !Contains(FirstSplit(s, sep), sep)
  {
    var r := FirstSplit(s, sep);
    forall j: nat ensures !OccursAt(r, sep, j) {
      if OccursAt(r, sep, j) {
        OccursAtPrefix(s, sep, |r|, j);
      }
    }
  }

  /** A string without the separator is its own first element. */
  lemma FirstSplitWhole(s: string, sep: string)
    requires |sep| > 0 && !Contains(s, sep)
    ensures FirstSplit(s, sep) == s
  {
  }

  /** The first element is exactly the prefix up to the leftmost occurrence. */
  lemma FirstSplitAt(s: string, sep: string, k: nat)
    requires |sep| > 0 && OccursAt(s, sep, k) && NoOccurrenceBefore(s, sep, k)
    ensures FirstSplit(s, sep) == s[..k]
  {
  }

  /** The first element is empty exactly when `s` is empty or starts with `sep`. */
  lemma FirstSplitEmptyIff(s: string, sep: string)
    requires |sep| > 0
    ensures FirstSplit(s, sep) == "" <==> (s == "" || OccursAt(s, sep, 0))
  {
    if OccursAt(s, sep, 0) {
      FirstSplitAt(s, sep, 0);
    }
  }

  /**
   Go's `strings.Split(s, sep)` for a non-empty `sep`: the pieces of `s`
   between the non-overlapping occurrences of `sep`, scanning left to right.
   */
  function Split(s: string, sep: string): (parts: seq<string>)
    requires |sep| > 0
    ensures |parts| >= 1
    decreases |s|
  {
    if |s| < |sep| then [s]
    else if s[..|sep|] == sep then [""] + Split(s[|sep|..], sep)
    else
      var rest := Split(s[1..], sep);
      [[s[0]] + rest[0]] + rest[1..]
  }

  /** Go's `strings.Join(parts, sep)`. */
  function Join(parts: seq<string>, sep: string): (s: string)
    requires |parts| >= 1
    ensures |s| >= |parts[0]| && s[..|parts[0]|] == parts[0]
    decreases |parts|
  {
    if |parts| == 1 then parts[0]
    else parts[0] + sep + Join(parts[1..], sep)
  }

  /** `FirstSplit` is the head of `Split`. */
  lemma {:induction false} SplitHead(s: string, sep: string)
    requires |sep| > 0
    ensures Split(s, sep)[0] == FirstSplit(s, sep)
    decreases |s|
  {
    if |s| >= |sep| && s[..|sep|] != sep {
      SplitHead(s[1..], sep);
    }
  }

  /** Joining the pieces of a split with the same separator gives back `s`. */
  lemma {:induction false} JoinSplit(s: string, sep: string)
    requires |sep| > 0
    ensures Join(Split(s, sep), sep) == s
    decreases |s|
  {
    if |s| < |sep| {
    } else if s[..|sep|] == sep {
      var tail := Split(s[|sep|..], sep);
      JoinSplit(s[|sep|..], sep);
      assert ([""] + tail)[1..] == tail;
      calc {
        Join([""] + tail, sep);
        "" + sep + Join(tail, sep);
        s[..|sep|] + s[|sep|..];
        s;
      }
    } else {
      var rest := Split(s[1..], sep);
      var parts := [[s[0]] + rest[0]] + rest[1..];
      JoinSplit(s[1..], sep);
      if |rest| == 1 {
        calc {
          Join(parts, sep);
          [s[0]] + rest[0];
          [s[0]] + Join(rest, sep);
          [s[0]] + s[1..];
          s;
        }
      } else {
        assert parts[1..] == rest[1..];
        calc {
          Join(parts, sep);
          [s[0]] + rest[0] + sep + Join(rest[1..], sep);
          [s[0]] + Join(rest, sep);
          [s[0]] + s[1..];
          s;
        }
      }
    }
  }

  /** A split yields a single piece exactly when `sep` does not occur in `s`. */
  lemma {:induction false} SplitSingleIff(s: string, sep: string)
    requires |sep| > 0
    ensures |Split(s, sep)| == 1 <==> !Contains(s, sep)
    decreases |s|
  {
    if |s| < |sep| {
      assert forall j: nat :: !OccursAt(s, sep, j);
    } else if s[..|sep|] == sep {
      assert OccursAt(s, sep, 0);
    } else {
      SplitSingleIff(s[1..], sep);
      if Contains(s, sep) {
        var i: nat :| OccursAt(s, sep, i);
        assert i > 0;
        OccursAtTail(s, sep, i - 1);
        assert Contains(s[1..], sep);
      } else {
        forall j: nat ensures !OccursAt(s[1..], sep, j) {
          OccursAtTail(s, sep, j);
        }
      }
    }
  }
}
