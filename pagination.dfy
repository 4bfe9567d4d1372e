/** `clickShowMoreButton`: expands the profile's publication list by clicking
    the "show more" button until it is gone. The page is an oracle: one
    answer per round. */
module Pagination {

  /** What happens after the button has been clicked: the click itself
      throws, the 2000 ms wait for the button to be enabled again times out
      (or fails), or the button is enabled again. */
  datatype AfterClick = ClickThrew | WaitTimedOut | Reenabled

  /** One round of the recursion: the lookup of the button throws, finds
      nothing, or finds the button, which is then clicked. */
  datatype Round = LookupThrew | Absent | Present(after: AfterClick)

  /** A round after which the recursion goes on. */
  predicate Continues(r: Round) {
    r == Present(Reenabled)
  }

  /** The number of clicks made when the page answers `rounds` in turn.
      Answers the page never gives (the sequence runs out) end the loop as
      an absent button would. */
  function Clicks(rounds: seq<Round>): nat {
    if rounds == [] then 0
    else match rounds[0]
      case LookupThrew => 0
      case Absent => 0
      case Present(after) => 1 + (if after == Reenabled then Clicks(rounds[1..]) else 0)
  }

  /** The number of rounds in which the button was present. */
  function PresentCount(rounds: seq<Round>): nat {
    if rounds == [] then 0
    else (if rounds[0].Present? then 1 else 0) + PresentCount(rounds[1..])
  }

  /** The loop itself. Both ways of stopping, an absent button and a
      swallowed error, return in the same way: the caller cannot tell them
      apart, and only the number of clicks is reported. */
  method ClickShowMoreButton(rounds: seq<Round>) returns (clicks: nat)
    ensures clicks == Clicks(rounds)
    ensures clicks <= |rounds|
    ensures rounds == [] || !rounds[0].Present? ==> clicks == 0
  {
    clicks := 0;
    var i := 0;
    var more := true;
    while more && i < |rounds|
      invariant 0 <= i <= |rounds|
      invariant clicks <= i
      invariant clicks + (if more then Clicks(rounds[i..]) else 0) == Clicks(rounds)
    {
      match rounds[i] {
        case LookupThrew =>
          more := false;
        case Absent =>
          more := false;
        case Present(after) =>
          clicks := clicks + 1;
          if after != Reenabled {
            more := false;
          }
      }
      i := i + 1;
    }
  }

  /** Every click happens in a round where the button was present. */
  lemma {:induction false} ClicksAtMostPresent(rounds: seq<Round>)
    ensures Clicks(rounds) <= PresentCount(rounds)
  {
    if rounds != [] {
      ClicksAtMostPresent(rounds[1..]);
    }
  }

  /** The number of clicks, described without the recursion: if the first
      `n` rounds all end with the button enabled again and round `n` does
      not, there are `n` clicks, plus one more when round `n` found the
      button (and then stopped on a thrown click or a timed-out wait). */
  lemma {:induction false} ClicksExactly(rounds: seq<Round>, n: nat)
    requires n <= |rounds|
    requires forall j :: 0 <= j < n ==> Continues(rounds[j])
    requires n < |rounds| ==> !Continues(rounds[n])
    ensures Clicks(rounds) == n + (if n < |rounds| && rounds[n].Present? then 1 else 0)
  {
    if n > 0 {
      assert Continues(rounds[0]);
      ClicksExactly(rounds[1..], n - 1);
    }
  }

  /** A timed-out wait ends the loop: what the page would answer afterwards
      is never asked. */
  lemma {:induction false} StopIgnoresLaterRounds(rounds: seq<Round>, later: seq<Round>, n: nat)
    requires n < |rounds|
    requires forall j :: 0 <= j < n ==> Continues(rounds[j])
    requires !Continues(rounds[n])
    ensures Clicks(rounds + later) == Clicks(rounds)
  {
    if n > 0 {
      assert (rounds + later)[1..] == rounds[1..] + later;
      StopIgnoresLaterRounds(rounds[1..], later, n - 1);
    } else {
      assert (rounds + later)[0] == rounds[0];
    }
  }
}
