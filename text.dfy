/** String helpers shared by the query builders: Go's strings.Join and a
    character count used to state how many placeholders a query holds. */
module Text {

  /** strings.Join: the parts, with `sep` between each pair of neighbours. */
  function Join(parts: seq<string>, sep: string): string {
    if parts == [] then ""
    else if |parts| == 1 then parts[0]
    else parts[0] + sep + Join(parts[1..], sep)
  }

  /** Join as Go's builder writes it: each part after the first is added
      behind a separator at the end of what is already joined. */
  lemma {:induction false} JoinSnoc(parts: seq<string>, p: string, sep: string)
    requires parts != []
    ensures Join(parts + [p], sep) == Join(parts, sep) + sep + p
  {
    if |parts| > 1 {
      assert (parts + [p])[1..] == parts[1..] + [p];
      JoinSnoc(parts[1..], p, sep);
    } else {
      assert (parts + [p])[1..] == [p];
    }
  }

  /** Number of occurrences of `c` in `s`. */
  function CountChar(s: string, c: char): (n: nat)
    ensures n <= |s|
  {
    if s == [] then 0
    else (if s[0] == c then 1 else 0) + CountChar(s[1..], c)
  }

  lemma {:induction false} CountCharAppend(a: string, b: string, c: char)
    ensures CountChar(a + b, c) == CountChar(a, c) + CountChar(b, c)
  {
    if a == [] {
      assert a + b == b;
    } else {
      assert (a + b)[1..] == a[1..] + b;
      CountCharAppend(a[1..], b, c);
    }
  }

  lemma {:induction false} CountCharAbsent(s: string, c: char)
    requires c !in s
    ensures CountChar(s, c) == 0
  {
    if s != [] {
      assert c !in s[1..] by {
        forall k | 0 <= k < |s[1..]| ensures s[1..][k] != c { assert s[1..][k] == s[k + 1]; }
      }
      CountCharAbsent(s[1..], c);
    }
  }

  /** Sum of the counts of `c` over the parts. */
  function CountCharAll(parts: seq<string>, c: char): nat {
    if parts == [] then 0 else CountChar(parts[0], c) + CountCharAll(parts[1..], c)
  }

  /** A join whose separator lacks `c` holds exactly the parts' occurrences of `c`. */
  lemma {:induction false} CountCharJoin(parts: seq<string>, sep: string, c: char)
    requires c !in sep
    ensures CountChar(Join(parts, sep), c) == CountCharAll(parts, c)
  {
    if |parts| > 1 {
      CountCharJoin(parts[1..], sep, c);
      CountCharAbsent(sep, c);
      CountCharAppend(parts[0], sep, c);
      CountCharAppend(parts[0] + sep, Join(parts[1..], sep), c);
    } else if |parts| == 1 {
      assert CountCharAll(parts[1..], c) == 0;
    }
  }

  /** Length of a join: the parts plus one separator between each pair. */
  lemma {:induction false} JoinLength(parts: seq<string>, sep: string, partLen: nat)
    requires forall k :: 0 <= k < |parts| ==> |parts[k]| == partLen
    ensures |Join(parts, sep)| == if parts == [] then 0 else |parts| * partLen + (|parts| - 1) * |sep|
  {
    if |parts| > 1 {
      JoinLength(parts[1..], sep, partLen);
    }
  }

  /** Total length of the parts. */
  function TotalLength(parts: seq<string>): nat {
    if parts == [] then 0 else |parts[0]| + TotalLength(parts[1..])
  }

  /** Length of a join in general: the parts' total length plus one
      separator between each pair of neighbours. */
  lemma {:induction false} JoinSize(parts: seq<string>, sep: string)
    ensures |Join(parts, sep)| == if parts == [] then 0 else TotalLength(parts) + (|parts| - 1) * |sep|
  {
    if |parts| > 1 {
      JoinSize(parts[1..], sep);
    } else if |parts| == 1 {
      assert TotalLength(parts[1..]) == 0;
    }
  }

  /** Every part holds `c` exactly once: the parts hold it |parts| times. */
  lemma {:induction false} CountCharAllOnce(parts: seq<string>, c: char)
    requires forall k :: 0 <= k < |parts| ==> CountChar(parts[k], c) == 1
    ensures CountCharAll(parts, c) == |parts|
  {
    if parts != [] {
      CountCharAllOnce(parts[1..], c);
    }
  }

  /** No part holds `c`: neither do the parts together. */
  lemma {:induction false} CountCharAllAbsent(parts: seq<string>, c: char)
    requires forall k :: 0 <= k < |parts| ==> c !in parts[k]
    ensures CountCharAll(parts, c) == 0
  {
    if parts != [] {
      CountCharAbsent(parts[0], c);
      CountCharAllAbsent(parts[1..], c);
    }
  }

  /** Appending a string without `c` leaves the count of `c` as it was. */
  lemma CountCharAppendAbsent(a: string, b: string, c: char)
    requires c !in b
    ensures CountChar(a + b, c) == CountChar(a, c)
  {
    CountCharAppend(a, b, c);
    CountCharAbsent(b, c);
  }

  /** So does prepending one. */
  lemma CountCharPrependAbsent(a: string, b: string, c: char)
    requires c !in a
    ensures CountChar(a + b, c) == CountChar(b, c)
  {
    CountCharAppend(a, b, c);
    CountCharAbsent(a, c);
  }
}
