/** Requests for memory and the answers to them: an operation that blames a lack of memory had
    a request of its own refused. */
module Memory {

  /** Request `k` is refused.  Requests past the end of `answers` are granted. */
  ghost predicate Refused(answers: seq<bool>, k: nat) {
    k < |answers| && !answers[k]
  }

  /** The next `n` requests from `i` on are granted. */
  ghost predicate Granted(answers: seq<bool>, i: nat, n: nat) {
    forall k: nat :: i <= k < i + n ==> !Refused(answers, k)
  }

  /** All requests from `i` on are granted. */
  ghost predicate Plenty(answers: seq<bool>, i: nat) {
    forall k: nat :: i <= k ==> !Refused(answers, k)
  }

  lemma {:induction false} GrantedBoth(answers: seq<bool>, i: nat, n: nat, m: nat)
    ensures Granted(answers, i, n + m) <==> Granted(answers, i, n) && Granted(answers, i + n, m)
  {}

  /** An operation made the requests from `i` up to `j`; if it reports `oom`, one was refused. */
  ghost predicate Spent(answers: seq<bool>, i: nat, j: nat, oom: bool) {
    i <= j && (oom ==> exists k :: i <= k < j && Refused(answers, k))
  }

  /** One operation after the other: the pair may blame the memory if one of them may. */
  lemma {:induction false} SpentTwice(answers: seq<bool>, i: nat, j: nat, k: nat, first: bool, second: bool, oom: bool)
    requires Spent(answers, i, j, first) && Spent(answers, j, k, second) && (oom ==> first || second)
    ensures Spent(answers, i, k, oom)
  {}

  /** With enough memory for every request, no operation blames the memory. */
  lemma {:induction false} NeverRefused(answers: seq<bool>, i: nat, j: nat, oom: bool)
    requires Spent(answers, i, j, oom)
    ensures Plenty(answers, i) ==> !oom && Plenty(answers, j)
  {}
}
