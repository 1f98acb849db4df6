/**
  Composite cache keys (cache.go:110-116): `CreateKeyWithDelimiter` is Go's
  `strings.Join` of its arguments, `CreateKey` the same with the default
  delimiter ":".
 */
module Keys {

  /** The default delimiter of `CreateKey` (cache.go:11). */
  const DEFAULT_DELIMITER: string := ":"

  /** Go's `strings.Join(elems, sep)`: no element gives "", one element gives
      that element, otherwise the elements with `sep` between neighbours. */
  function Join(elems: seq<string>, sep: string): string
  {
    if |elems| == 0 then ""
    else if |elems| == 1 then elems[0]
    else Join(elems[..|elems| - 1], sep) + sep + elems[|elems| - 1]
  }

  function CreateKeyWithDelimiter(delimiter: string, args: seq<string>): string
  {
    Join(args, delimiter)
  }

  function CreateKey(args: seq<string>): string
  {
    CreateKeyWithDelimiter(DEFAULT_DELIMITER, args)
  }

  /** An independent reference definition of joining, built from the front. */
  function JoinFront(elems: seq<string>, sep: string): string
  {
    if |elems| == 0 then ""
    else if |elems| == 1 then elems[0]
    else elems[0] + sep + JoinFront(elems[1..], sep)
  }

  /** The total number of characters in `elems`. */
  function TotalLength(elems: seq<string>): nat
  {
    if elems == [] then 0 else TotalLength(elems[..|elems| - 1]) + |elems[|elems| - 1]|
  }

  /** Joining two non-empty runs of parts puts one separator between them. */
  lemma {:induction false} JoinAppend(a: seq<string>, b: seq<string>, sep: string)
    requires |a| > 0 && |b| > 0
    ensures Join(a + b, sep) == Join(a, sep) + sep + Join(b, sep)
  {
    var n := |b|;
    if n == 1 {
      assert (a + b)[..|a + b| - 1] == a;
    } else {
      var b' := b[..n - 1];
      assert (a + b)[..|a + b| - 1] == a + b';
      JoinAppend(a, b', sep);
    }
  }

  /** `Join` agrees with the front-built reference definition. */
  lemma {:induction false} JoinMatchesReference(elems: seq<string>, sep: string)
    ensures Join(elems, sep) == JoinFront(elems, sep)
  {
    if |elems| >= 2 {
      var rest := elems[1..];
      JoinMatchesReference(rest, sep);
      assert elems == [elems[0]] + rest;
      JoinAppend([elems[0]], rest, sep);
    }
  }

  /** A joined key is as long as its parts plus one separator between each
      pair of neighbours. */
  lemma {:induction false} JoinLength(elems: seq<string>, sep: string)
    requires |elems| > 0
    ensures |Join(elems, sep)| == TotalLength(elems) + (|elems| - 1) * |sep|
  {
    if |elems| == 1 {
      assert elems[..0] == [];
    } else {
      JoinLength(elems[..|elems| - 1], sep);
    }
  }

  /** The boundary cases and examples of key composition: no part gives the
      empty key, one part gives that part, and parts are joined by ":" by
      default or by the given delimiter. */
  lemma CreateKeyExamples(x: string)
    ensures CreateKey([]) == ""
    ensures CreateKey([x]) == x
    ensures CreateKey(["a", "b"]) == "a:b"
    ensures CreateKey(["user", "12"]) == "user:12"
    ensures CreateKeyWithDelimiter("-", ["a", "b"]) == "a-b"
  {
  }

  /** `CreateKey` is `CreateKeyWithDelimiter` with ":" and so puts ":" between
      every pair of neighbouring parts. */
  lemma CreateKeyAppend(a: seq<string>, b: seq<string>)
    requires |a| > 0 && |b| > 0
    ensures CreateKey(a + b) == CreateKey(a) + ":" + CreateKey(b)
  {
    JoinAppend(a, b, DEFAULT_DELIMITER);
  }
}
