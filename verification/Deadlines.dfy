/** A deadline that may expire at any moment, as the checks of it find it. */
module Deadlines {

  /** One of the checks from the `from`-th up to the `to`-th finds the deadline expired. */
  ghost predicate Expired(expires: nat -> bool, from: nat, to: nat) {
    exists n :: from <= n < to && expires(n)
  }

  lemma ExpiredOn(expires: nat -> bool, from: nat, via: nat, to: nat)
    requires from <= via <= to
    ensures Expired(expires, from, to) <==> Expired(expires, from, via) || Expired(expires, via, to)
  {
  }

  /** Makes the next check, none since the `from`-th having found it expired. */
  method Check(expires: nat -> bool, checks: nat, ghost from: nat) returns (expired: bool, made: nat)
    requires from <= checks && !Expired(expires, from, checks)
    ensures made == checks + 1 && expired == expires(checks)
    ensures expired <==> Expired(expires, from, made)
  {
    expired, made := expires(checks), checks + 1;
  }
}
