/** Shared vocabulary of the wiki-provenance model: the errors the validator
    raises, the result and option types that replace Python exceptions and
    `None`, and order-preserving filtering, used both to clean page lines and
    to partition sentences. */
module Base {

  /** Every exception the validator core raises or lets propagate. */
  datatype Error =
      /** No search title resolved to a page (the `RuntimeError` of `get_wiki_page`). */
    | PageNotFound(topic: string)
      /** A disambiguation error that offered no option: `de.options[0]` raises `IndexError`. */
    | NoDisambiguationOption
      /** The first disambiguation option was itself ambiguous; that error propagates. */
    | DisambiguationError(title: string, options: seq<string>)
      /** The first disambiguation option does not exist; that `PageError` propagates. */
    | PageError(title: string)
      /** The similarity query returned no result list (`ValueError`). */
    | NoMatchingParagraphs
      /** The judge call failed; the source wraps the cause in a `RuntimeError`. */
    | JudgeUnavailable
      /** The normalised judge reply is neither "yes" nor "no" (`ValueError`). */
    | InvalidEvaluation
      /** `validate` was configured with an unknown validation method (`ValueError`). */
    | UnsupportedMethod(name: string)

  /** The errors whose text the validator writes itself (the others come from libraries). */
  predicate RaisedByValidator(e: Error)
  {
    e.PageNotFound? || e.NoMatchingParagraphs? || e.JudgeUnavailable? ||
    e.InvalidEvaluation? || e.UnsupportedMethod?
  }

  /** The text before the topic in the page-not-found message. */
  const NotFoundLead: string := "Could not find a valid Wikipedia page for "

  /** The text before the method name in the unsupported-method message. */
  const MethodLead: string := "Validation method "

  /** The text of the exceptions the validator raises itself.  The wrapped cause
      of `JudgeUnavailable` is not modelled, so its message stops at the colon. */
  function ErrorMessage(e: Error): (m: string)
    requires RaisedByValidator(e)
    ensures m != []
    ensures e.PageNotFound? ==>
      |m| > |NotFoundLead| + |e.topic| && m[..|NotFoundLead|] == NotFoundLead &&
      m[|NotFoundLead|..|NotFoundLead| + |e.topic|] == e.topic && m[|NotFoundLead| + |e.topic|] == '.'
    ensures e.UnsupportedMethod? ==>
      |m| > |MethodLead| + |e.name| && m[..|MethodLead|] == MethodLead &&
      m[|MethodLead|..|MethodLead| + |e.name|] == e.name && m[|MethodLead| + |e.name|] == ' '
  {
    match e
    case PageNotFound(topic) =>
      NotFoundLead + topic + ". " + "Please try with a different topic."
    case NoMatchingParagraphs => "Could not find any matching paragraphs in the Wikipedia page."
    case JudgeUnavailable => "Error getting response from the LLM: "
    case InvalidEvaluation => "Received an invalid evaluation response from the LLM."
    case UnsupportedMethod(name) =>
      MethodLead + name + " is not supported." + "Please use either 'sentence' or 'full'."
  }

  datatype Result<+T> = Ok(value: T) | Err(error: Error) {
    predicate IsFailure() { Err? }
    function PropagateFailure<U>(): Result<U>
      requires Err?
    {
      Err(error)
    }
    function Extract(): T
      requires Ok?
    {
      value
    }
  }

  datatype Option<+T> = None | Some(value: T)

  /** `a` is obtained from `b` by deleting elements, so the elements of `a`
      occur in `b` in the same relative order (matched greedily from the end). */
  predicate IsSubsequence<T(==)>(a: seq<T>, b: seq<T>)
    decreases |b|
  {
    if a == [] then true
    else if b == [] then false
    else if a[|a| - 1] == b[|b| - 1] then IsSubsequence(a[..|a| - 1], b[..|b| - 1])
    else IsSubsequence(a, b[..|b| - 1])
  }

  /** Every element of a subsequence is an element of the whole. */
  lemma {:induction false} SubsequenceHolds<T>(a: seq<T>, b: seq<T>, i: nat)
    requires IsSubsequence(a, b) && i < |a|
    ensures a[i] in b
    decreases |b|
  {
    if a[|a| - 1] == b[|b| - 1] {
      if i < |a| - 1 {
        SubsequenceHolds(a[..|a| - 1], b[..|b| - 1], i);
      }
    } else {
      SubsequenceHolds(a, b[..|b| - 1], i);
    }
  }

  /** The elements of `s` that satisfy `p`, in their original order
      (Python's `[x for x in s if p(x)]`). `FilterMeaning` states its properties and
      `FilterUnique` shows that they determine it. */
  function Filter<T(==)>(p: T -> bool, s: seq<T>): seq<T>
    decreases |s|
  {
    if s == [] then [] else Filter(p, s[..|s| - 1]) + if p(s[|s| - 1]) then [s[|s| - 1]] else []
  }

  /** Filtering keeps only elements satisfying `p`. */
  lemma {:induction false} FilterSound<T>(p: T -> bool, s: seq<T>)
    ensures forall i :: 0 <= i < |Filter(p, s)| ==> p(Filter(p, s)[i])
    decreases |s|
  {
    if s != [] {
      var init, last := s[..|s| - 1], s[|s| - 1];
      FilterSound(p, init);
      var q := Filter(p, init);
      if p(last) {
        assert Filter(p, s) == q + [last];
      } else {
        assert Filter(p, s) == q + [];
        assert q + [] == q;
      }
    }
  }

  /** Filtering keeps every element satisfying `p`. */
  lemma {:induction false} FilterComplete<T>(p: T -> bool, s: seq<T>)
    ensures forall i :: 0 <= i < |s| && p(s[i]) ==> s[i] in Filter(p, s)
    decreases |s|
  {
    if s != [] {
      var init, last := s[..|s| - 1], s[|s| - 1];
      FilterComplete(p, init);
      var q := Filter(p, init);
      assert forall i :: 0 <= i < |init| ==> s[i] == init[i];
      if p(last) {
        var r := q + [last];
        assert Filter(p, s) == r;
        assert forall x :: x in q ==> x in r;
        assert last in r;
      } else {
        assert Filter(p, s) == q + [];
        assert q + [] == q;
      }
    }
  }

  /** Filtering keeps the kept elements in their original order. */
  lemma {:induction false} FilterOrdered<T>(p: T -> bool, s: seq<T>)
    ensures IsSubsequence(Filter(p, s), s) && |Filter(p, s)| <= |s|
    decreases |s|
  {
    if s != [] {
      var init, last := s[..|s| - 1], s[|s| - 1];
      FilterOrdered(p, init);
      FilterSound(p, init);
      var q := Filter(p, init);
      if p(last) {
        var r := q + [last];
        assert Filter(p, s) == r;
        assert r[..|r| - 1] == q;
      } else {
        assert Filter(p, s) == q + [];
        assert q + [] == q;
        assert q != [] ==> p(q[|q| - 1]);
      }
    }
  }

  /** Filtering keeps every occurrence of an element satisfying `p` and no
      occurrence of any other element. */
  lemma {:induction false} FilterCounts<T>(p: T -> bool, s: seq<T>)
    ensures forall x :: multiset(Filter(p, s))[x] == if p(x) then multiset(s)[x] else 0
    decreases |s|
  {
    if s != [] {
      var init, last := s[..|s| - 1], s[|s| - 1];
      FilterCounts(p, init);
      assert s == init + [last];
      assert Filter(p, s) == Filter(p, init) + if p(last) then [last] else [];
    }
  }

  /** A subsequence holds no element more often than the whole. */
  lemma {:induction false} SubsequenceCounts<T>(a: seq<T>, b: seq<T>)
    requires IsSubsequence(a, b)
    ensures multiset(a) <= multiset(b)
    decreases |b|
  {
    if a != [] {
      assert b == b[..|b| - 1] + [b[|b| - 1]];
      if a[|a| - 1] == b[|b| - 1] {
        SubsequenceCounts(a[..|a| - 1], b[..|b| - 1]);
        assert a == a[..|a| - 1] + [a[|a| - 1]];
      } else {
        SubsequenceCounts(a, b[..|b| - 1]);
      }
    }
  }

  /** Filtering keeps only elements satisfying `p`, keeps every occurrence of
      those that do, and keeps them in their original order. */
  lemma FilterMeaning<T>(p: T -> bool, s: seq<T>)
    ensures var r := Filter(p, s);
      (forall i :: 0 <= i < |r| ==> p(r[i])) &&
      (forall i :: 0 <= i < |s| && p(s[i]) ==> s[i] in r) &&
      (forall x :: multiset(r)[x] == if p(x) then multiset(s)[x] else 0) &&
      IsSubsequence(r, s) && |r| <= |s|
  {
    FilterSound(p, s);
    FilterComplete(p, s);
    FilterCounts(p, s);
    FilterOrdered(p, s);
  }

  /** These properties determine the filter: an order-preserving selection of
      elements satisfying `p` that keeps every occurrence of them is `Filter(p, s)`. */
  lemma {:induction false} FilterUnique<T>(p: T -> bool, s: seq<T>, r: seq<T>)
    requires IsSubsequence(r, s)
    requires forall i :: 0 <= i < |r| ==> p(r[i])
    requires forall x :: p(x) ==> multiset(r)[x] == multiset(s)[x]
    ensures r == Filter(p, s)
    decreases |s|
  {
    if s == [] {
      assert r == [];
    } else {
      var init, last := s[..|s| - 1], s[|s| - 1];
      assert s == init + [last];
      if r != [] && r[|r| - 1] == last {
        var front := r[..|r| - 1];
        assert r == front + [last];
        assert p(last);
        assert front == Filter(p, init) by {
          assert IsSubsequence(front, init);
          assert forall x :: p(x) ==> multiset(front)[x] == multiset(init)[x];
          FilterUnique(p, init, front);
        }
        assert Filter(p, s) == Filter(p, init) + [last];
      } else {
        assert IsSubsequence(r, init);
        if p(last) {
          SubsequenceCounts(r, init);
          assert false;
        }
        assert r == Filter(p, init) by {
          assert forall x :: p(x) ==> multiset(r)[x] == multiset(init)[x];
          FilterUnique(p, init, r);
        }
        assert Filter(p, s) == Filter(p, init) + [];
      }
    }
  }

  /** Filtering distributes over concatenation. Together with the value of
      `Filter` on one element this determines `Filter` completely. */
  lemma {:induction false} FilterAppend<T>(p: T -> bool, a: seq<T>, b: seq<T>)
    ensures Filter(p, a + b) == Filter(p, a) + Filter(p, b)
    decreases |b|
  {
    if b != [] {
      var init, last := b[..|b| - 1], b[|b| - 1];
      assert (a + b)[..|a + b| - 1] == a + init;
      assert (a + b)[|a + b| - 1] == last;
      FilterAppend(p, a, init);
    } else {
      assert a + b == a;
    }
  }

  /** An element that satisfies `p` is kept, one that does not is dropped. */
  lemma FilterSingleton<T>(p: T -> bool, x: T)
    ensures Filter(p, [x]) == if p(x) then [x] else []
  {
    assert [x][..0] == [];
  }

  /** Filtering by `p` and by its negation splits `s` into two parts that
      together hold every element of `s` exactly as often as `s` does. */
  lemma {:induction false} FilterPartition<T>(p: T -> bool, q: T -> bool, s: seq<T>)
    requires forall x :: q(x) == !p(x)
    ensures multiset(Filter(p, s)) + multiset(Filter(q, s)) == multiset(s)
    ensures |Filter(p, s)| + |Filter(q, s)| == |s|
    decreases |s|
  {
    if s != [] {
      var init, last := s[..|s| - 1], s[|s| - 1];
      assert s == init + [last];
      FilterPartition(p, q, init);
    }
  }

  /** Filtering keeps everything exactly when every element satisfies `p`. */
  lemma {:induction false} FilterKeepsAll<T>(p: T -> bool, s: seq<T>)
    ensures Filter(p, s) == s <==> forall i :: 0 <= i < |s| ==> p(s[i])
    decreases |s|
  {
    if s != [] {
      var init, last := s[..|s| - 1], s[|s| - 1];
      var q := Filter(p, init);
      FilterKeepsAll(p, init);
      FilterOrdered(p, init);
      assert s == init + [last];
      assert forall i :: 0 <= i < |init| ==> s[i] == init[i];
      if p(last) {
        assert Filter(p, s) == q + [last];
        assert (Filter(p, s) == s) == (q == init) by {
          if q + [last] == init + [last] {
            assert (q + [last])[..|q|] == q;
          }
        }
      } else {
        assert Filter(p, s) == q + [];
        assert |Filter(p, s)| < |s|;
        assert !p(s[|s| - 1]);
      }
    }
  }
}
