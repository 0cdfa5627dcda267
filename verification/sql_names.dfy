/** How SQLite compares the names of columns: two names denote one column
    when they agree once the ASCII letters `A`-`Z` are folded to lower case;
    every other character, a non-ASCII letter included, is compared as it
    is. `CREATE TABLE` refuses a column whose name is equal in this sense to
    an earlier one ("duplicate column name"). */
module SqlNames {
  import opened Wrappers
  import PyDict

  function FoldChar(ch: char): char {
    if 'A' <= ch <= 'Z' then (ch as int + 32) as char else ch
  }

  /** A name with its ASCII capitals folded to lower case. */
  function Fold(s: string): (r: string)
    ensures |r| == |s|
    ensures forall i :: 0 <= i < |s| ==> r[i] == FoldChar(s[i])
  {
    seq(|s|, i requires 0 <= i < |s| => FoldChar(s[i]))
  }

  /** No ASCII capital letter. */
  predicate NoCapitals(s: string) {
    forall i :: 0 <= i < |s| ==> !('A' <= s[i] <= 'Z')
  }

  /** A name is its own fold exactly when it holds no ASCII capital. */
  lemma FoldFixed(s: string)
    ensures Fold(s) == s <==> NoCapitals(s)
  {
    if !NoCapitals(s) {
      var i :| 0 <= i < |s| && 'A' <= s[i] <= 'Z';
      assert Fold(s)[i] != s[i];
    }
  }

  /** No two positions of the list hold names SQLite takes for one column. */
  predicate CaseDistinct(names: seq<string>) {
    forall i, j :: 0 <= i < j < |names| ==> Fold(names[i]) != Fold(names[j])
  }

  /** Position `j` repeats, up to case, a name declared before it. */
  predicate RepeatsEarlier(names: seq<string>, j: int)
    requires 0 <= j < |names|
  {
    exists i :: 0 <= i < j && Fold(names[i]) == Fold(names[j])
  }

  /** The column `CREATE TABLE` reports as a duplicate: the first name, in
      declaration order, that is equal up to case to an earlier one. */
  function FirstClash(names: seq<string>): (r: Option<string>)
    ensures r.None? <==> CaseDistinct(names)
    ensures r.Some? ==>
      exists j :: 0 <= j < |names| && names[j] == r.value && CaseDistinct(names[..j]) && RepeatsEarlier(names, j)
    decreases |names|
  {
    if |names| == 0 then None
    else
      var n := |names| - 1;
      var front := FirstClash(names[..n]);
      assert forall i :: 0 <= i < n ==> names[..n][i] == names[i];
      if front.Some? then
        var j :| 0 <= j < n && names[..n][j] == front.value && CaseDistinct(names[..n][..j]) && RepeatsEarlier(names[..n], j);
        assert names[..n][..j] == names[..j];
        assert RepeatsEarlier(names, j);
        front
      else if RepeatsEarlier(names, n) then
        assert names[..n] == names[..n];
        Some(names[n])
      else
        assert CaseDistinct(names) by {
          forall i, j | 0 <= i < j < |names|
            ensures Fold(names[i]) != Fold(names[j])
          {
            if j < n {
              assert Fold(names[..n][i]) != Fold(names[..n][j]);
            }
          }
        }
        None
  }

  /** For distinct names, being case-distinct is a property of the set of
      names, whatever their order. */
  lemma CaseDistinctNames(names: seq<string>)
    requires PyDict.Distinct(names)
    ensures CaseDistinct(names) <==> forall x, y :: x in names && y in names && x != y ==> Fold(x) != Fold(y)
  {
    if CaseDistinct(names) {
      forall x, y | x in names && y in names && x != y
        ensures Fold(x) != Fold(y)
      {
        var i :| 0 <= i < |names| && names[i] == x;
        var j :| 0 <= j < |names| && names[j] == y;
        if i < j {
          assert Fold(names[i]) != Fold(names[j]);
        } else {
          assert Fold(names[j]) != Fold(names[i]);
        }
      }
    }
  }

  /** Some name of `extra` is taken by SQLite for a different name of
      `extra` or of `base`. */
  predicate Collides(extra: seq<string>, base: seq<string>) {
    exists h, x :: h in extra && x in extra + base && h != x && Fold(h) == Fold(x)
  }

  /** Distinct names made of `extra` and of case-distinct `base` name
      distinct columns exactly when no name of `extra` collides. */
  lemma CollidesIff(names: seq<string>, extra: seq<string>, base: seq<string>)
    requires PyDict.Distinct(names)
    requires forall x :: x in names <==> x in extra || x in base
    requires CaseDistinct(base)
    ensures CaseDistinct(names) <==> !Collides(extra, base)
  {
    CaseDistinctNames(names);
    if !CaseDistinct(names) {
      var x, y :| x in names && y in names && x != y && Fold(x) == Fold(y);
      if x in extra {
        assert Collides(extra, base);
      } else if y in extra {
        assert y in extra && x in extra + base && y != x && Fold(y) == Fold(x);
        assert Collides(extra, base);
      } else {
        assert false;
      }
    }
  }

  /** Distinct names without ASCII capitals are case-distinct. */
  lemma LowerDistinct(names: seq<string>)
    requires PyDict.Distinct(names)
    requires forall n :: n in names ==> NoCapitals(n)
    ensures CaseDistinct(names)
  {
    forall i, j | 0 <= i < j < |names|
      ensures Fold(names[i]) != Fold(names[j])
    {
      FoldFixed(names[i]);
      FoldFixed(names[j]);
    }
  }
}
