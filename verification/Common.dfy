/**
 What several of the models share: optional values, and requests that are cut into batches.
 */
module Common {

  datatype Option<+T> = None | Some(value: T)

  /** All batches one after the other. */
  function Flatten<T>(batches: seq<seq<T>>): seq<T> {
    if batches == [] then [] else batches[0] + Flatten(batches[1..])
  }

  lemma {:induction false} FlattenConcat<T>(a: seq<seq<T>>, b: seq<seq<T>>)
    ensures Flatten(a + b) == Flatten(a) + Flatten(b)
  {
    if a == [] {
      assert a + b == b;
    } else {
      assert (a + b)[1..] == a[1..] + b;
      FlattenConcat(a[1..], b);
    }
  }

  lemma FlattenAppend<T>(batches: seq<seq<T>>, batch: seq<T>)
    ensures Flatten(batches + [batch]) == Flatten(batches) + batch
  {
    FlattenConcat(batches, [batch]);
    assert Flatten([batch]) == batch + Flatten([]) == batch;
  }

  /** Whichever batch is taken out, its elements and no others are gone. */
  lemma {:induction false} FlattenWithout<T>(batches: seq<seq<T>>, i: nat)
    requires i < |batches|
    ensures multiset(Flatten(batches[..i] + batches[i + 1..])) + multiset(batches[i]) == multiset(Flatten(batches))
  {
    var rest := batches[..i] + batches[i + 1..];
    if i == 0 {
      assert rest == batches[1..];
    } else {
      FlattenWithout(batches[1..], i - 1);
      assert rest[0] == batches[0] && rest[1..] == batches[1..][..i - 1] + batches[1..][i..];
    }
  }

  lemma FlattenMembers<T>(batches: seq<seq<T>>, i: nat)
    requires i < |batches|
    ensures forall x :: x in Flatten(batches) <==> x in batches[i] || x in Flatten(batches[..i] + batches[i + 1..])
  {
    var rest := batches[..i] + batches[i + 1..];
    FlattenWithout(batches, i);
    forall x
      ensures x in Flatten(batches) <==> x in batches[i] || x in Flatten(rest)
    {
      assert x in Flatten(batches) <==> x in multiset(Flatten(batches));
      assert x in Flatten(rest) <==> x in multiset(Flatten(rest));
      assert x in batches[i] <==> x in multiset(batches[i]);
    }
  }
}
