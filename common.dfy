/** Small shared vocabulary: optional values, results, the hosted text
    models seen as an oracle, and the array helpers `filter` and `find`. */
module Common {

  datatype Option<+T> = None | Some(value: T)

  datatype Result<+T, +E> = Success(value: T) | Failure(error: E)

  /** What one call to a hosted model (summarization or text generation)
      comes back with: some text, or a thrown error. */
  datatype Reply = Generated(text: string) | Unavailable

  /** A hosted model endpoint. It is handed the index of the loop iteration
      that calls it and the input text; nothing is assumed about its answer. */
  type Oracle = (nat, string) -> Reply

  /** `Array.prototype.filter`: the elements that pass `keep`, in order. */
  function Filter<T>(s: seq<T>, keep: T -> bool): (r: seq<T>)
    ensures |r| <= |s|
    ensures forall k :: 0 <= k < |r| ==> keep(r[k]) && r[k] in s
  {
    if s == [] then []
    else (if keep(s[0]) then [s[0]] else []) + Filter(s[1..], keep)
  }

  /** Every kept element of `s` survives the filter. */
  lemma {:induction false} FilterComplete<T>(s: seq<T>, keep: T -> bool)
    ensures forall x :: x in s && keep(x) ==> x in Filter(s, keep)
  {
    if s != [] {
      FilterComplete(s[1..], keep);
      assert forall x :: x in s ==> x == s[0] || x in s[1..];
    }
  }

  /** Nothing is left exactly when no element passes. */
  lemma {:induction false} FilterEmpty<T>(s: seq<T>, keep: T -> bool)
    ensures Filter(s, keep) == [] <==> forall k :: 0 <= k < |s| ==> !keep(s[k])
  {
    if s != [] {
      FilterEmpty(s[1..], keep);
      assert forall k :: 1 <= k < |s| ==> s[k] == s[1..][k - 1];
    }
  }

  /** Filtering a concatenation filters each part. */
  lemma {:induction false} FilterAppend<T>(a: seq<T>, b: seq<T>, keep: T -> bool)
    ensures Filter(a + b, keep) == Filter(a, keep) + Filter(b, keep)
  {
    if a == [] {
      assert a + b == b;
    } else {
      assert (a + b)[0] == a[0];
      assert (a + b)[1..] == a[1..] + b;
      FilterAppend(a[1..], b, keep);
    }
  }

  /** The first element that passes the filter is the one `find` returns. */
  lemma {:induction false} FilterFirst<T>(s: seq<T>, keep: T -> bool)
    ensures Filter(s, keep) != [] ==> Find(s, keep).Some? && Filter(s, keep)[0] == Find(s, keep).value
  {
    if s != [] && !keep(s[0]) {
      FilterFirst(s[1..], keep);
    }
  }

  /** A member of a list of at most one element is that element. */
  lemma OnlyMember<T>(s: seq<T>, x: T)
    requires |s| <= 1 && x in s
    ensures |s| == 1 && s[0] == x
  {
  }

  /** `Array.prototype.find`: the first element that passes `test`. */
  function Find<T>(s: seq<T>, test: T -> bool): (r: Option<T>)
    ensures r.None? <==> forall k :: 0 <= k < |s| ==> !test(s[k])
    ensures r.Some? ==> exists k :: 0 <= k < |s| && s[k] == r.value && test(s[k]) &&
                                    forall j :: 0 <= j < k ==> !test(s[j])
  {
    if s == [] then None
    else if test(s[0]) then Some(s[0])
    else
      var r := Find(s[1..], test);
      assert r.Some? ==> exists k :: 0 <= k < |s| - 1 && s[1..][k] == r.value && test(s[1..][k]) &&
                                     forall j :: 0 <= j < k ==> !test(s[1..][j]);
      assert r.Some? ==> exists k :: 1 <= k < |s| && s[k] == r.value && test(s[k]) &&
                                     forall j :: 0 <= j < k ==> !test(s[j]);
      r
  }
}
