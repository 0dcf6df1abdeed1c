/**
 * The prizes section: three prize cards, each locked until clicked, and an "unlock all"
 * button shown until every card is open. The list transforms are functions; the
 * component's state is a class whose methods replace it as the setters do.
 */
module Prizes {

  /** A prize card; the icon and the colour classes are presentation and are not modelled. */
  datatype Prize = Prize(id: string, title: string, description: string, reward: string, unlocked: bool)

  const InitialPrizes: seq<Prize> := [
    Prize("ctf", "CTF Champions", "Top performers in Capture The Flag", "Special Prize Cards", false),
    Prize("quiz", "Quiz Masters", "Highest scorers in Linux Quiz", "Exciting Rewards", false),
    Prize("all", "All Participants", "Everyone who completes the workshop", "E-Certificate", false)
  ]

  /** The card ids, in display order. */
  function Ids(ps: seq<Prize>): seq<string> {
    seq(|ps|, i requires 0 <= i < |ps| => ps[i].id)
  }

  /** `p` and `q` are the same card, whatever their `unlocked` flags. */
  predicate SameCard(p: Prize, q: Prize) {
    p.(unlocked := q.unlocked) == q
  }

  /** `prev.map(p => p.id === id ? {...p, unlocked: true} : p)`. */
  function UnlockMatching(ps: seq<Prize>, id: string): (r: seq<Prize>)
    ensures |r| == |ps|
    ensures forall i :: 0 <= i < |ps| ==> SameCard(ps[i], r[i])
    ensures forall i :: 0 <= i < |ps| ==> r[i].unlocked == (ps[i].unlocked || ps[i].id == id)
  {
    if ps == [] then []
    else [if ps[0].id == id then ps[0].(unlocked := true) else ps[0]] + UnlockMatching(ps[1..], id)
  }

  /** `prev.map(p => ({...p, unlocked: true}))`. */
  function UnlockEvery(ps: seq<Prize>): (r: seq<Prize>)
    ensures |r| == |ps|
    ensures forall i :: 0 <= i < |ps| ==> SameCard(ps[i], r[i]) && r[i].unlocked
  {
    if ps == [] then [] else [ps[0].(unlocked := true)] + UnlockEvery(ps[1..])
  }

  /** `updated.every(p => p.unlocked)`. */
  function EveryUnlocked(ps: seq<Prize>): (b: bool)
    ensures b <==> forall i :: 0 <= i < |ps| ==> ps[i].unlocked
  {
    if ps == [] then true else ps[0].unlocked && EveryUnlocked(ps[1..])
  }

  /** Unlocking an id that no card carries changes nothing. */
  lemma UnlockAbsentIdIsIdentity(ps: seq<Prize>, id: string)
    requires forall i :: 0 <= i < |ps| ==> ps[i].id != id
    ensures UnlockMatching(ps, id) == ps
  {
    var r := UnlockMatching(ps, id);
    assert forall i :: 0 <= i < |ps| ==> r[i] == ps[i] by {
      forall i | 0 <= i < |ps| ensures r[i] == ps[i] {
        assert SameCard(ps[i], r[i]);
      }
    }
  }

  /** Unlocking the same id twice is unlocking it once. */
  lemma UnlockIsIdempotent(ps: seq<Prize>, id: string)
    ensures UnlockMatching(UnlockMatching(ps, id), id) == UnlockMatching(ps, id)
  {
    var r := UnlockMatching(ps, id);
    var rr := UnlockMatching(r, id);
    assert forall i :: 0 <= i < |ps| ==> rr[i] == r[i] by {
      forall i | 0 <= i < |ps| ensures rr[i] == r[i] {
        assert SameCard(ps[i], r[i]) && SameCard(r[i], rr[i]);
      }
    }
  }

  /** Unlocking every card after any single unlocks is unlocking every card. */
  lemma UnlockEveryAbsorbsUnlock(ps: seq<Prize>, id: string)
    ensures UnlockEvery(UnlockMatching(ps, id)) == UnlockEvery(ps)
  {
    var r := UnlockMatching(ps, id);
    var a, b := UnlockEvery(r), UnlockEvery(ps);
    assert forall i :: 0 <= i < |ps| ==> a[i] == b[i] by {
      forall i | 0 <= i < |ps| ensures a[i] == b[i] {
        assert SameCard(ps[i], r[i]) && SameCard(r[i], a[i]) && SameCard(ps[i], b[i]);
      }
    }
  }

  class PrizesSection {
    var prizes: seq<Prize>
    var allUnlocked: bool

    /** The cards keep their ids and order, and the flag says exactly whether every card is open. */
    ghost predicate Valid()
      reads this
    {
      && Ids(prizes) == Ids(InitialPrizes)
      && (allUnlocked <==> EveryUnlocked(prizes))
    }

    constructor ()
      ensures Valid()
      ensures prizes == InitialPrizes && !allUnlocked
    {
      prizes := InitialPrizes;
      allUnlocked := false;
    }

    /** unlockPrize: opens the cards with that id, and raises the flag once every card is open. */
    method UnlockPrize(id: string)
      requires Valid()
      modifies this
      ensures Valid()
      ensures prizes == UnlockMatching(old(prizes), id)
      ensures allUnlocked == (old(allUnlocked) || EveryUnlocked(prizes))
      ensures forall i :: 0 <= i < |prizes| ==> old(prizes)[i].unlocked ==> prizes[i].unlocked
    {
      var updated := UnlockMatching(prizes, id);
      if EveryUnlocked(updated) {
        allUnlocked := true;
      }
      prizes := updated;
    }

    /** unlockAll: opens every card and raises the flag. */
    method UnlockAll()
      requires Valid()
      modifies this
      ensures Valid()
      ensures prizes == UnlockEvery(old(prizes)) && allUnlocked
    {
      prizes := UnlockEvery(prizes);
      allUnlocked := true;
    }

    /** A click on card `i` unlocks it only while it is locked. */
    method ClickCard(i: nat)
      requires Valid() && i < |prizes|
      modifies this
      ensures Valid()
      ensures old(prizes)[i].unlocked ==> prizes == old(prizes) && allUnlocked == old(allUnlocked)
      ensures !old(prizes)[i].unlocked ==> prizes == UnlockMatching(old(prizes), old(prizes)[i].id)
      ensures prizes[i].unlocked
    {
      if !prizes[i].unlocked {
        UnlockPrize(prizes[i].id);
      }
    }

    /** The "unlock all" button is rendered exactly while some card is still locked. */
    method ShowsUnlockAllButton() returns (shown: bool)
      requires Valid()
      ensures shown <==> exists i :: 0 <= i < |prizes| && !prizes[i].unlocked
    {
      shown := !allUnlocked;
    }
  }
}
