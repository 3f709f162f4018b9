/**
  Python's `str.split("/")`, as `resolve` uses it, and its inverse `"/".join`.
*/
module Paths {

  /** `s.split("/")`: the maximal slash-free pieces of `s`, empty pieces included. */
  function Split(s: string): (segs: seq<string>)
    ensures |segs| >= 1
    ensures forall i :: 0 <= i < |segs| ==> '/' !in segs[i]
    decreases |s|
  {
    if s == [] then [""]
    else if s[0] == '/' then [""] + Split(s[1..])
    else
      var rest := Split(s[1..]);
      [[s[0]] + rest[0]] + rest[1..]
  }

  /** `"/".join(segs)` */
  function Join(segs: seq<string>): string
    requires |segs| >= 1
    decreases |segs|
  {
    if |segs| == 1 then segs[0] else segs[0] + "/" + Join(segs[1..])
  }

  lemma {:induction false} JoinPrepend(c: char, segs: seq<string>)
    requires |segs| >= 1
    ensures Join([[c] + segs[0]] + segs[1..]) == [c] + Join(segs)
  {
    var t := [[c] + segs[0]] + segs[1..];
    assert t[1..] == segs[1..];
  }

  /** Joining the pieces with '/' gives back the string: split loses nothing. */
  lemma {:induction false} JoinSplit(s: string)
    ensures Join(Split(s)) == s
    decreases |s|
  {
    if s != [] {
      JoinSplit(s[1..]);
      if s[0] == '/' {
        assert ([""] + Split(s[1..]))[1..] == Split(s[1..]);
      } else {
        JoinPrepend(s[0], Split(s[1..]));
      }
    }
  }

  /** A string without '/' is a single piece. */
  lemma {:induction false} SplitSlashFree(s: string)
    requires '/' !in s
    ensures Split(s) == [s]
    decreases |s|
  {
    if s != [] {
      assert '/' !in s[1..] by {
        forall i | 0 <= i < |s[1..]| ensures s[1..][i] != '/' {
          assert s[1..][i] == s[i + 1];
        }
      }
      SplitSlashFree(s[1..]);
      assert s[0] != '/';
      assert [s[0]] + s[1..] == s;
    }
  }

  /** Splitting a piece followed by '/' and more text. */
  lemma {:induction false} SplitAfterPiece(a: string, rest: string)
    requires '/' !in a
    ensures Split(a + "/" + rest) == [a] + Split(rest)
    decreases |a|
  {
    if a == [] {
      assert a + "/" + rest == ['/'] + rest;
      assert (['/'] + rest)[1..] == rest;
    } else {
      var s := a + "/" + rest;
      assert s[0] == a[0] && s[1..] == a[1..] + "/" + rest;
      assert '/' !in a[1..] by {
        forall i | 0 <= i < |a[1..]| ensures a[1..][i] != '/' {
          assert a[1..][i] == a[i + 1];
        }
      }
      SplitAfterPiece(a[1..], rest);
      assert [a[0]] + a[1..] == a;
    }
  }

  /** Splitting the join of slash-free pieces gives back the pieces: join loses nothing either. */
  lemma {:induction false} SplitJoin(segs: seq<string>)
    requires |segs| >= 1
    requires forall i :: 0 <= i < |segs| ==> '/' !in segs[i]
    ensures Split(Join(segs)) == segs
    decreases |segs|
  {
    if |segs| == 1 {
      SplitSlashFree(segs[0]);
    } else {
      SplitJoin(segs[1..]);
      SplitAfterPiece(segs[0], Join(segs[1..]));
    }
  }

  /** A trailing '/' adds exactly one empty piece at the end. */
  lemma {:induction false} SplitTrailingSlash(s: string)
    ensures Split(s + "/") == Split(s) + [""]
    decreases |s|
  {
    if s == [] {
      assert s + "/" == "/";
      assert "/"[1..] == [];
    } else {
      var t := s + "/";
      assert t[0] == s[0] && t[1..] == s[1..] + "/";
      SplitTrailingSlash(s[1..]);
    }
  }

  /** The last piece is empty exactly when the string is empty or ends in '/'. */
  lemma {:induction false} SplitLastPiece(s: string)
    ensures var segs := Split(s);
            segs[|segs| - 1] == "" <==> (s == [] || s[|s| - 1] == '/')
    decreases |s|
  {
    if s != [] {
      SplitLastPiece(s[1..]);
      var rest := Split(s[1..]);
      if s[0] != '/' && |rest| == 1 {
        assert Split(s)[|Split(s)| - 1] == [s[0]] + rest[0];
      }
    }
  }

  /** There is more than one piece exactly when the string contains a '/'. */
  lemma {:induction false} SplitCountsSlash(s: string)
    ensures |Split(s)| > 1 <==> '/' in s
    decreases |s|
  {
    if s != [] {
      SplitCountsSlash(s[1..]);
      assert '/' in s <==> s[0] == '/' || '/' in s[1..] by {
        assert s == [s[0]] + s[1..];
      }
    }
  }
}
