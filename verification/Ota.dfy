/** Deciding whether an update is worth taking, and whether it arrived intact. */
module Ota {
  import opened Basics
  import Endian
  import Sha256
  import Version

  const VERSION_MAX := 25
  const U32 := 0x1_0000_0000

  datatype State = Idle | Offered | Downloading | Ready | Failed
  datatype Reject = NoReject | NotNewer | TooBig | Malformed | TooShort | TooLong | BadDigest

  datatype Offer = Offer(version: string, size: nat, sha256: seq<byte>)

  const NO_OFFER := Offer("", 0, [])

  /** The machine's state; `image` is what has been fed since the download began. */
  datatype Core = Core(current: string, partition: nat, state: State, reject: Reject, offer: Offer, image: seq<byte>)

  datatype Event = MakeOffer(offer: Offer) | Begin | Feed(data: seq<byte>) | Finish | Abort(why: Reject)

  /** `snprintf` keeps what fits in front of the terminator. */
  function Clipped(version: string): string {
    if |version| < VERSION_MAX then version else version[..VERSION_MAX - 1]
  }

  function Init(current: Option<string>, partition: nat): Core {
    Core(Clipped(if current.Some? then current.value else "0.0.0"), partition, Idle, NoReject, NO_OFFER, [])
  }

  /** It starts with nothing on offer, running what it was told, of which the first 24 characters are kept. */
  lemma StartsAs(current: Option<string>, partition: nat)
    ensures var c, given := Init(current, partition), if current.Some? then current.value else "0.0.0";
            && c.current <= given && |c.current| == (if |given| < 24 then |given| else 24)
            && c.state == Idle && c.offer.version == "" && c.offer.size == 0 && c.partition == partition
  {}

  function Verdict(c: Core, o: Offer): Reject {
    if o.version == "" || o.size == 0 then Malformed
    else if Version.Compare(o.version, c.current) <= 0 then NotNewer
    else if o.size > c.partition then TooBig
    else NoReject
  }

  function Aborted(c: Core, why: Reject): Core {
    c.(state := Failed, reject := why, image := [])
  }

  function Step(c: Core, e: Event): Core {
    match e
    case MakeOffer(o) =>
      var v := Verdict(c, o);
      if v == NoReject then c.(reject := v, offer := o, state := Offered) else c.(reject := v)
    case Begin =>
      if c.state == Offered then c.(state := Downloading, image := []) else c
    case Feed(data) =>
      if c.state != Downloading then c
      else if |c.image| + |data| > c.offer.size then Aborted(c, TooLong)
      else c.(image := c.image + data)
    case Finish =>
      if c.state != Downloading then c
      else if |c.image| != c.offer.size then Aborted(c, TooShort)
      else if Sha256.Digest(c.image) != c.offer.sha256 then Aborted(c, BadDigest)
      else c.(state := Ready)
    case Abort(why) => Aborted(c, why)
  }

  function Run(c: Core, events: seq<Event>): Core {
    if events == [] then c else Step(Run(c, events[..|events| - 1]), events[|events| - 1])
  }

  /**
   * An offer is taken exactly when it is well-formed, newer than what runs and fits the partition; a
   * refused one changes nothing but the reason on record.
   */
  lemma OfferTakenIff(c: Core, o: Offer)
    ensures var d := Step(c, MakeOffer(o));
            && (d.reject == NoReject <==>
                o.version != "" && 0 < o.size <= c.partition && Version.Compare(o.version, c.current) > 0)
            && (d.reject == NoReject ==> d.state == Offered && d.offer == o)
            && (d.reject != NoReject ==> d == c.(reject := d.reject))
  {}

  /** The reason on record for a refusal: the first of malformed, not newer and too big that applies. */
  lemma RefusedBecause(c: Core, o: Offer)
    ensures var why := Step(c, MakeOffer(o)).reject;
            && (why == Malformed <==> o.version == "" || o.size == 0)
            && (why == NotNewer <==> o.version != "" && o.size > 0 && Version.Compare(o.version, c.current) <= 0)
            && (why == TooBig <==> o.version != "" && Version.Compare(o.version, c.current) > 0 && o.size > c.partition && o.size > 0)
            && why in {NoReject, Malformed, NotNewer, TooBig}
  {}

  /** Among dotted decimals: if, besides, its component is the larger where the versions first differ. */
  lemma OfferNewerIff(c: Core, o: Offer)
    requires Version.Dotted(o.version) && Version.Dotted(c.current)
    ensures Step(c, MakeOffer(o)).reject == NoReject <==>
            && o.version != "" && 0 < o.size <= c.partition
            && exists i: nat :: Version.LessAt(Version.Components(c.current), Version.Components(o.version), i)
  {
    hide Version.Dotted, Version.Components, Version.Compare;
    OfferTakenIff(c, o);
    Version.NewerIff(o.version, c.current);
  }

  // ---------------------------------------------------------------- every run

  ghost predicate Inv(c: Core) {
    && (c.state != Idle && c.state != Failed ==>
        && c.offer.version != "" && 0 < c.offer.size <= c.partition
        && Version.Compare(c.offer.version, c.current) > 0)
    && (c.state == Downloading ==> |c.image| <= c.offer.size)
    && (c.state == Ready ==> |c.image| == c.offer.size && Sha256.Digest(c.image) == c.offer.sha256)
  }

  lemma StepKeeps(c: Core, e: Event)
    requires Inv(c)
    ensures Inv(Step(c, e)) && Step(c, e).current == c.current && Step(c, e).partition == c.partition
  {
    hide Version.Compare, Sha256.Digest;
  }

  /** In every run nothing is accepted beyond the offered size, and only the offered bytes make an image ready. */
  lemma {:induction false} RunKeeps(c: Core, events: seq<Event>)
    requires Inv(c)
    ensures Inv(Run(c, events))
  {
    if events != [] {
      RunKeeps(c, events[..|events| - 1]);
      StepKeeps(Run(c, events[..|events| - 1]), events[|events| - 1]);
    }
  }

  /** The bytes a stretch of events feeds. */
  function FedBy(events: seq<Event>): seq<byte> {
    if events == [] then []
    else
      var last := events[|events| - 1];
      FedBy(events[..|events| - 1]) + (if last.Feed? then last.data else [])
  }

  /** Event `at` began the download that is under way after `events`. */
  ghost predicate Began(c: Core, events: seq<Event>, at: nat) {
    && at < |events| && events[at] == Begin
    && Run(c, events[..at]).state == Offered
    && Run(c, events[..at]).offer == Run(c, events).offer
  }

  /** How a step can lead into a download or to its good end. */
  lemma StepInto(c: Core, e: Event)
    ensures Step(c, e).state == Downloading ==>
              || (e == Begin && c.state == Offered && Step(c, e) == c.(state := Downloading, image := []))
              || (c.state == Downloading && Step(c, e) == c.(reject := Step(c, e).reject, image := Step(c, e).image)
                  && Step(c, e).image == c.image + (if e.Feed? then e.data else []))
    ensures Step(c, e).state == Ready && c.state != Ready ==>
              && e == Finish && c.state == Downloading && Step(c, e).offer == c.offer
              && |c.image| == c.offer.size && Sha256.Digest(c.image) == c.offer.sha256
    ensures Step(c, e).state == Ready && c.state == Ready ==> Step(c, e).offer == c.offer
  {
    hide Version.Compare, Sha256.Digest;
    assert c.image + [] == c.image;
  }

  lemma FedSnoc(events: seq<Event>, at: nat)
    requires at < |events|
    ensures FedBy(events[at..]) ==
            FedBy(events[..|events| - 1][at..]) + (var e := events[|events| - 1]; if e.Feed? then e.data else [])
  {
    var tail, n := events[at..], |events| - 1;
    assert tail[|tail| - 1] == events[n] && tail[..|tail| - 1] == events[..n][at..];
  }

  lemma {:induction false} DownloadHistory(c: Core, events: seq<Event>) returns (at: nat)
    requires c.state == Idle && Run(c, events).state == Downloading
    ensures Began(c, events, at) && Run(c, events).image == FedBy(events[at + 1..])
  {
    hide Step, FedBy;
    var n := |events| - 1;
    var before, last := events[..n], events[n];
    StepInto(Run(c, before), last);
    if last == Begin && Run(c, before).state == Offered {
      at := n;
      FedNothing();
      assert events[n + 1..] == [];
    } else {
      at := DownloadHistory(c, before);
      assert before[..at] == events[..at] && before[at] == events[at];
      FedSnoc(events, at + 1);
    }
  }

  lemma FedNothing()
    ensures FedBy([]) == []
  {}

  /**
   * A run that ends ready contains a download of the offer it is ready with: begun while that offer stood,
   * finished later, and fed in between with exactly the offered number of bytes and the offered digest.
   */
  lemma {:induction false} ReadyHistory(c: Core, events: seq<Event>) returns (at: nat, end: nat)
    requires c.state == Idle && Run(c, events).state == Ready
    ensures at < end < |events| && events[end] == Finish
    ensures Began(c, events, at)
    ensures var image := FedBy(events[at + 1..end]);
            |image| == Run(c, events).offer.size && Sha256.Digest(image) == Run(c, events).offer.sha256
  {
    hide Step, FedBy, Sha256.Digest;
    var n := |events| - 1;
    var before, last := events[..n], events[n];
    StepInto(Run(c, before), last);
    if Run(c, before).state == Ready {
      at, end := ReadyHistory(c, before);
      assert before[at + 1..end] == events[at + 1..end] && before[end] == events[end];
    } else {
      at := DownloadHistory(c, before);
      end := n;
      assert before[at + 1..] == events[at + 1..n];
    }
    assert before[..at] == events[..at] && before[at] == events[at];
  }

  function Feeds(pieces: seq<seq<byte>>): seq<Event> {
    seq(|pieces|, i requires 0 <= i < |pieces| => Feed(pieces[i]))
  }

  lemma {:induction false} FeedsAccumulate(c: Core, pieces: seq<seq<byte>>)
    requires c.state == Downloading && |c.image| + |Concat(pieces)| <= c.offer.size
    ensures Run(c, Feeds(pieces)) == c.(image := c.image + Concat(pieces))
  {
    hide Version.Compare, Sha256.Digest;
    if pieces == [] {
      assert c.image + [] == c.image;
    } else {
      var n := |pieces| - 1;
      assert pieces == pieces[..n] + [pieces[n]];
      ConcatSnoc(pieces[..n], pieces[n]);
      assert Feeds(pieces)[..n] == Feeds(pieces[..n]);
      FeedsAccumulate(c, pieces[..n]);
      assert c.image + (Concat(pieces[..n]) + pieces[n]) == c.image + Concat(pieces[..n]) + pieces[n];
    }
  }

  lemma {:induction false} FeedsOverrun(c: Core, pieces: seq<seq<byte>>)
    requires c.state == Downloading && |c.image| <= c.offer.size < |c.image| + |Concat(pieces)|
    ensures var d := Run(c, Feeds(pieces)); d.state == Failed && d.reject == TooLong
  {
    hide Version.Compare, Sha256.Digest;
    if pieces != [] {
      var n := |pieces| - 1;
      assert pieces == pieces[..n] + [pieces[n]];
      ConcatSnoc(pieces[..n], pieces[n]);
      assert Feeds(pieces)[..n] == Feeds(pieces[..n]);
      if |c.image| + |Concat(pieces[..n])| <= c.offer.size {
        FeedsAccumulate(c, pieces[..n]);
      } else {
        FeedsOverrun(c, pieces[..n]);
      }
    }
  }

  /**
   * What is delivered decides, however the network cuts it: the offered image installs, another of its length fails
   * on its digest, a shorter one is found short when it ends and a longer one long.
   */
  lemma DeliveryDecides(c: Core, pieces: seq<seq<byte>>)
    requires c.state == Offered
    ensures var d, image := Step(Run(Step(c, Begin), Feeds(pieces)), Finish), Concat(pieces);
            if |image| == c.offer.size && Sha256.Digest(image) == c.offer.sha256 then d.state == Ready
            else d.state == Failed && d.reject == if |image| > c.offer.size then TooLong
                                                  else if |image| < c.offer.size then TooShort
                                                  else BadDigest
  {
    hide Version.Compare, Sha256.Digest;
    if |Concat(pieces)| <= c.offer.size {
      FeedsAccumulate(Step(c, Begin), pieces);
      assert [] + Concat(pieces) == Concat(pieces);
    } else {
      FeedsOverrun(Step(c, Begin), pieces);
    }
  }

  // ---------------------------------------------------------------- the program

  class OtaCore {
    var current: string
    var partition: nat
    var state: State
    var reject: Reject
    var offer: Offer
    var hash: Sha256.Hasher
    var received: nat
    /** What the machine has been fed since the download began. */
    ghost var image: seq<byte>
    ghost var repr: set<object>

    ghost predicate Valid()
      reads this, repr
    {
      && repr == {this, hash, hash.h, hash.block}
      && received == |image|
      && (state == Downloading ==> hash.Valid() && hash.fed == image && Inv(Abs()))
      && (state != Downloading ==> Inv(Abs()))
    }

    ghost function Abs(): Core
      reads this
    {
      Core(current, partition, state, reject, offer, image)
    }

    constructor (currentVersion: Option<string>, partitionBytes: nat)
      requires partitionBytes < U32
      ensures Valid() && fresh(repr) && Abs() == Init(currentVersion, partitionBytes)
    {
      hide Sha256.Hasher.Valid, Sha256.Digest, Version.Compare;
      var h := new Sha256.Hasher();
      current := Clipped(if currentVersion.Some? then currentVersion.value else "0.0.0");
      partition := partitionBytes;
      state, reject, offer, received := Idle, NoReject, NO_OFFER, 0;
      hash := h;
      image := [];
      repr := {this, h, h.h, h.block};
    }

    method AcceptOffer(o: Offer) returns (taken: bool)
      requires Valid()
      modifies this
      ensures Valid() && repr == old(repr) && Abs() == Step(old(Abs()), MakeOffer(o))
      ensures taken == (reject == NoReject)
    {
      hide Sha256.Hasher.Valid, Sha256.Digest, Version.Compare;
      reject := NoReject;
      if o.version == "" || o.size == 0 {
        reject := Malformed;
        return false;
      }
      var order := Version.VersionCompare(o.version, current);
      if order <= 0 {
        reject := NotNewer;
        return false;
      }
      if o.size > partition {
        reject := TooBig;
        return false;
      }
      offer := o;
      state := Offered;
      taken := true;
    }

    method BeginDownload()
      requires Valid()
      modifies this
      ensures Valid() && fresh(repr - old(repr)) && Abs() == Step(old(Abs()), Begin)
    {
      hide Sha256.Hasher.Valid, Sha256.Digest, Version.Compare;
      if state != Offered { return; }
      hash := new Sha256.Hasher();
      received := 0;
      state := Downloading;
      image := [];
      repr := {this, hash, hash.h, hash.block};
    }

    method FeedBytes(data: seq<byte>) returns (ok: bool)
      requires Valid()
      modifies repr
      ensures Valid() && repr == old(repr) && Abs() == Step(old(Abs()), Feed(data))
      ensures ok == (old(state) == Downloading && state == Downloading)
    {
      hide Sha256.Hasher.Valid, Sha256.Digest, Version.Compare;
      if state != Downloading { return false; }
      if received + |data| > offer.size {
        AbortWith(TooLong);
        return false;
      }
      hash.Update(data);
      received := received + |data|;
      image := image + data;
      ok := true;
    }

    method FinishDownload() returns (ok: bool)
      requires Valid()
      modifies repr
      ensures Valid() && repr == old(repr) && Abs() == Step(old(Abs()), Finish)
      ensures ok == (old(state) == Downloading && state == Ready)
    {
      hide Sha256.Hasher.Valid, Sha256.Digest, Version.Compare;
      if state != Downloading { return false; }
      if received != offer.size {
        AbortWith(TooShort);
        return false;
      }
      var digest := hash.Final();
      if digest != offer.sha256 {
        AbortWith(BadDigest);
        return false;
      }
      state := Ready;
      ok := true;
    }

    method AbortWith(why: Reject)
      requires repr == {this, hash, hash.h, hash.block}
      modifies this
      ensures Valid() && repr == old(repr) && Abs() == Step(old(Abs()), Abort(why))
    {
      state := Failed;
      reject := why;
      received := 0;
      image := [];
    }

    /** Percent received, never more than a hundred. */
    method Progress() returns (percent: nat)
      requires Valid()
      ensures state == Ready ==> percent == 100
      ensures state == Downloading ==>
              && percent * offer.size <= received * 100 < (percent + 1) * offer.size
              && (percent == 100 <==> received == offer.size)
    {
      hide Sha256.Hasher.Valid, Sha256.Digest, Version.Compare;
      if offer.size == 0 { return 0; }
      var pct := received * 100 / offer.size;
      if state == Downloading || state == Ready { Percent(received, offer.size); }
      percent := if pct > 100 then 100 else pct;
    }
  }

  lemma Percent(got: nat, size: nat)
    requires got <= size && size > 0
    ensures var p := got * 100 / size;
            p <= 100 && p * size <= got * 100 < (p + 1) * size && (p == 100 <==> got == size)
  {
    var p := got * 100 / size;
    assert got * 100 == size * p + got * 100 % size;
    assert size * (100 - p) == size * 100 - size * p;
    Endian.Multiples(100 - p, size);
  }
}
