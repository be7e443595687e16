/** The two loop shapes of the question generators. Item `i` is made from
    input `i`; when it consults the text-generation model it does so once,
    with index `i` and the prompt of input `i`. */
module Batches {
  import opened Common

  /** A batch whose items all need the model: it is rejected as soon as one
      call fails, and item `i` is made from input `i` and the text of reply
      `i`. */
  function Batch<T, B>(inputs: seq<T>, prompt: T -> string, generate: Oracle, item: (T, string) -> B): (r: Option<seq<B>>)
    ensures r.None? <==> exists i :: 0 <= i < |inputs| && generate(i, prompt(inputs[i])).Unavailable?
    ensures r.Some? ==> |r.value| == |inputs|
    ensures r.Some? ==> forall i :: 0 <= i < |inputs| ==> r.value[i] == item(inputs[i], generate(i, prompt(inputs[i])).text)
    decreases |inputs|
  {
    if inputs == [] then Some([])
    else
      var n := |inputs| - 1;
      var front := inputs[..n];
      assert forall i :: 0 <= i < n ==> front[i] == inputs[i];
      match Batch(front, prompt, generate, item)
      case None => None
      case Some(done) =>
        match generate(n, prompt(inputs[n]))
        case Unavailable => None
        case Generated(t) => Some(done + [item(inputs[n], t)])
  }

  /** One more successful call extends a successful batch by its item. */
  lemma BatchStep<T, B>(inputs: seq<T>, prompt: T -> string, generate: Oracle, item: (T, string) -> B, i: nat, done: seq<B>)
    requires i < |inputs| && Batch(inputs[..i], prompt, generate, item) == Some(done)
    requires generate(i, prompt(inputs[i])).Generated?
    ensures Batch(inputs[..i + 1], prompt, generate, item) == Some(done + [item(inputs[i], generate(i, prompt(inputs[i])).text)])
  {
    assert inputs[..i + 1][..i] == inputs[..i];
  }

  /** A batch whose items survive a failed call: item `i` is made from input
      `i` and reply `i`, whatever it is. */
  function Collect<T, B>(inputs: seq<T>, prompt: T -> string, generate: Oracle, item: (T, Reply) -> B): (r: seq<B>)
    ensures |r| == |inputs|
    ensures forall i :: 0 <= i < |inputs| ==> r[i] == item(inputs[i], generate(i, prompt(inputs[i])))
    decreases |inputs|
  {
    if inputs == [] then []
    else
      var n := |inputs| - 1;
      var front := inputs[..n];
      assert forall i :: 0 <= i < n ==> front[i] == inputs[i];
      Collect(front, prompt, generate, item) + [item(inputs[n], generate(n, prompt(inputs[n])))]
  }

  /** One more reply extends the batch by its item. */
  lemma CollectStep<T, B>(inputs: seq<T>, prompt: T -> string, generate: Oracle, item: (T, Reply) -> B, i: nat)
    requires i < |inputs|
    ensures Collect(inputs[..i + 1], prompt, generate, item) ==
      Collect(inputs[..i], prompt, generate, item) + [item(inputs[i], generate(i, prompt(inputs[i])))]
  {
    assert inputs[..i + 1][..i] == inputs[..i];
  }

  /** A batch that needs no model: item `i` is made from input `i`. */
  function Map<T, B>(inputs: seq<T>, item: T -> B): (r: seq<B>)
    ensures |r| == |inputs| && forall i :: 0 <= i < |inputs| ==> r[i] == item(inputs[i])
  {
    if inputs == [] then [] else Map(inputs[..|inputs| - 1], item) + [item(inputs[|inputs| - 1])]
  }

  /** One more input extends the batch by its item. */
  lemma MapStep<T, B>(inputs: seq<T>, item: T -> B, i: nat)
    requires i < |inputs|
    ensures Map(inputs[..i + 1], item) == Map(inputs[..i], item) + [item(inputs[i])]
  {
    assert inputs[..i + 1][..i] == inputs[..i];
  }

  /** A batch in which each input gives zero or more items, in input order:
      every item comes from some input, every item of every input is there,
      and when each input gives at most one there are at most as many items
      as inputs. */
  function Flatten<T, B>(inputs: seq<T>, item: T -> seq<B>): (r: seq<B>)
    ensures forall x :: x in r ==> exists k :: 0 <= k < |inputs| && x in item(inputs[k])
    ensures forall k, x :: 0 <= k < |inputs| && x in item(inputs[k]) ==> x in r
    ensures (forall k :: 0 <= k < |inputs| ==> |item(inputs[k])| <= 1) ==> |r| <= |inputs|
  {
    if inputs == [] then []
    else
      var front := inputs[..|inputs| - 1];
      assert forall k :: 0 <= k < |front| ==> front[k] == inputs[k];
      Flatten(front, item) + item(inputs[|inputs| - 1])
  }

  /** One more input extends the batch by its items. */
  lemma FlattenStep<T, B>(inputs: seq<T>, item: T -> seq<B>, x: T)
    ensures Flatten(inputs + [x], item) == Flatten(inputs, item) + item(x)
  {
    assert (inputs + [x])[..|inputs|] == inputs;
  }

  /** `n` inputs taken round-robin: input `i` is `xs[i % |xs|]`. */
  function RoundRobin<T>(xs: seq<T>, n: nat): (r: seq<T>)
    requires xs != []
    ensures |r| == n && forall i :: 0 <= i < n ==> r[i] == xs[i % |xs|]
  {
    if n == 0 then [] else RoundRobin(xs, n - 1) + [xs[(n - 1) % |xs|]]
  }

  /** `x`, `n` times. */
  function Repeat<T>(x: T, n: nat): (r: seq<T>)
    ensures |r| == n && forall i :: 0 <= i < n ==> r[i] == x
  {
    if n == 0 then [] else Repeat(x, n - 1) + [x]
  }

  /** The first `n` elements of `xs`, each paired with draw `i`. */
  function WithDraws<T, D>(xs: seq<T>, n: nat, draw: nat -> D): (r: seq<(T, D)>)
    requires n <= |xs|
    ensures |r| == n && forall i :: 0 <= i < n ==> r[i] == (xs[i], draw(i))
  {
    if n == 0 then [] else WithDraws(xs, n - 1, draw) + [(xs[n - 1], draw(n - 1))]
  }
}
