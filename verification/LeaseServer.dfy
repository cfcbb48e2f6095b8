/** The per-node lease file, and the client call that acquires or renews it across lost
    requests and lost responses. */
module LeaseServer {
  import opened Options

  /** `id` is the holder token: the random identity of the request that created it. */
  datatype Lease = Lease(id: string, created: nat, expires: nat)

  /** `held` stands for the message "lease is held". */
  datatype Response = Response(acquired: bool, lease: Option<Lease>, held: bool)

  /** What the network does to one request: carries it and its answer, loses the answer
      after the server acted, loses the request, or brings back a definite HTTP error. */
  datatype Fate = Answered | AnswerLost | RequestLost | HttpError

  predicate Live(slot: Option<Lease>, now: nat) {
    slot.Some? && now < slot.value.expires
  }

  function Max(a: nat, b: nat): nat {
    if a < b then b else a
  }

  /** What an acquire leaves in the file: a fresh lease over nothing or an expired one,
      an extended lease for its own holder, and another holder's lease untouched. */
  function Acquired(slot: Option<Lease>, id: string, now: nat, ttl: nat): Option<Lease> {
    if !Live(slot, now) then Some(Lease(id, now, now + ttl))
    else if slot.value.id == id then Some(slot.value.(expires := Max(slot.value.expires, now + ttl)))
    else slot
  }

  function Renewed(slot: Option<Lease>, id: string, now: nat, ttl: nat): Option<Lease> {
    if Live(slot, now) && slot.value.id == id
    then Some(slot.value.(expires := Max(slot.value.expires, now + ttl)))
    else slot
  }

  function Released(slot: Option<Lease>, id: string): Option<Lease> {
    if slot.Some? && slot.value.id == id then None else slot
  }

  /** The same lease, lasting to the later of its old expiry and `until`. */
  predicate Extends(before: Lease, after: Lease, until: nat) {
    && after.id == before.id && after.created == before.created
    && before.expires <= after.expires && until <= after.expires
    && (after.expires == before.expires || after.expires == until)
  }

  class LeaseFile {
    var slot: Option<Lease>

    constructor ()
      ensures slot == None
    {
      slot := None;
    }

    /** Exclusive creation, retried once after an expired lease is removed. */
    method Acquire(id: string, now: nat, ttl: nat) returns (r: Response)
      requires ttl > 0
      modifies this
      ensures slot == Acquired(old(slot), id, now, ttl)
      ensures r.lease == slot && (r.acquired <==> slot.Some? && slot.value.id == id) && (r.held <==> !r.acquired)
      ensures old(slot).None? || old(slot).value.expires <= now ==> slot == Some(Lease(id, now, now + ttl))
      ensures old(slot).Some? && now < old(slot).value.expires && old(slot).value.id != id ==> slot == old(slot)
      ensures old(slot).Some? && now < old(slot).value.expires && old(slot).value.id == id ==>
                slot.Some? && Extends(old(slot).value, slot.value, now + ttl)
    {
      var attempt := 0;
      while attempt < 2
        invariant 0 <= attempt <= 2
        invariant attempt == 0 ==> slot == old(slot)
        invariant attempt > 0 ==> slot == None && !Live(old(slot), now)
        invariant attempt < 2
      {
        if slot == None {
          slot := Some(Lease(id, now, now + ttl));
          return Response(true, slot, false);
        }
        var current := slot.value;
        if !(now < current.expires) {
          slot := None;
          attempt := attempt + 1;
          continue;
        }
        if current.id == id {
          slot := Some(current.(expires := Max(current.expires, now + ttl)));
          return Response(true, slot, false);
        }
        return Response(false, slot, true);
      }
    }

    method Renew(id: string, now: nat, ttl: nat) returns (r: Response)
      modifies this
      ensures slot == Renewed(old(slot), id, now, ttl)
      ensures r.lease == slot && (r.acquired <==> old(slot).Some? && now < old(slot).value.expires && old(slot).value.id == id)
      ensures r.acquired ==> slot.Some? && Extends(old(slot).value, slot.value, now + ttl)
      ensures !r.acquired ==> slot == old(slot)
      ensures r.held <==> old(slot).Some? && now < old(slot).value.expires && old(slot).value.id != id
    {
      if slot == None || !(now < slot.value.expires) { return Response(false, slot, false); }
      if slot.value.id != id { return Response(false, slot, true); }
      slot := Some(slot.value.(expires := Max(slot.value.expires, now + ttl)));
      r := Response(true, slot, false);
    }

    method Release(id: string) returns (ok: bool)
      modifies this
      ensures slot == Released(old(slot), id)
      ensures ok <==> old(slot).None? || old(slot).value.id == id
      ensures slot == if ok then None else old(slot)
    {
      if slot == None { return true; }
      if slot.value.id != id { return false; }
      slot := None;
      ok := true;
    }
  }

  /** A repeat sent while the first lease is live extends it; one sent later replaces it. */
  lemma RepeatKeepsUnlessExpired(slot: Option<Lease>, id: string, now: nat, later: nat, ttl: nat)
    requires ttl > 0 && now <= later && !Live(slot, now)
    ensures var first := Acquired(slot, id, now, ttl);
            var second := Acquired(first, id, later, ttl);
            && first == Some(Lease(id, now, now + ttl)) && second.Some? && second.value.id == id
            && (second.value.created == now <==> later < now + ttl)
  {
  }

  /** The attempt that decides the call was answered. */
  predicate LastAnswered(first: Fate, second: Fate, cancelled: bool) {
    first == Answered || (first != HttpError && !cancelled && second == Answered)
  }

  /** One acquire call: the request is repeated once, with the same identity, when its
      outcome is uncertain. Whatever is lost, the file ends with the holder it had or
      with a lease of this identity, and a success returns exactly the lease in the file.
      A lease that the first attempt created unseen is still that lease, however the call
      ends, exactly when no repeat reached the server or the repeat came before it expired. */
  method AcquireLease(file: LeaseFile, id: string, ttl: nat, now: nat, later: nat, first: Fate, second: Fate, cancelled: bool)
    returns (lease: Option<Lease>)
    requires 0 < ttl && now <= later
    modifies file
    ensures lease.Some? ==> file.slot == lease && lease.value.id == id
    ensures file.slot != old(file.slot) ==> file.slot.Some? && file.slot.value.id == id
    ensures Live(old(file.slot), later) && old(file.slot).value.id != id ==> lease == None && file.slot == old(file.slot)
    ensures first == AnswerLost && !Live(old(file.slot), now) ==>
              && file.slot.Some? && file.slot.value.id == id
              && file.slot.value.created ==
                   (if cancelled || (second != Answered && second != AnswerLost) || later < now + ttl then now else later)
    ensures lease.Some? <==> LastAnswered(first, second, cancelled) && file.slot.Some? && file.slot.value.id == id
    ensures lease == None && file.slot != old(file.slot) ==> first == AnswerLost || second == AnswerLost
  {
    var response := Response(false, None, false);
    var failed := first != Answered;
    if first == Answered || first == AnswerLost {
      response := file.Acquire(id, now, ttl);
    }
    if failed && first != HttpError && !cancelled {
      failed := second != Answered;
      if second == Answered || second == AnswerLost {
        response := file.Acquire(id, later, ttl);
      }
    }
    if failed || !response.acquired || response.lease == None { return None; }
    lease := response.lease;
  }

  /** One call that makes two leases: the answer to the acquire at 0 is lost, and when it is
      repeated at 5 the lease of five has run out. `first` is what the file holds if the
      repeat is lost, and `second` what the call returns if it is not. */
  method LateRepeatMakesASecondLease() returns (first: Option<Lease>, second: Option<Lease>)
    ensures first.Some? && first.value.id == "a" && first.value.created == 0
    ensures second.Some? && second.value.id == "a" && second.value.created == 5
  {
    var file := new LeaseFile();
    var missed := AcquireLease(file, "a", 5, 0, 0, AnswerLost, RequestLost, false);
    first := file.slot;
    file := new LeaseFile();
    second := AcquireLease(file, "a", 5, 0, 5, AnswerLost, Answered, false);
  }

  datatype RenewResult = Extended(lease: Lease) | Unsupported | LeaseLost | RequestFailed

  /** How the client reads a renewal answer, whatever server sent it: only an answer
      naming the requested lease extends it. */
  function ReadRenewal(r: Response, id: string): (result: RenewResult)
    ensures result.Extended? <==> r.acquired && r.lease.Some? && r.lease.value.id == id
    ensures result.Extended? ==> result.lease.id == id
    ensures result.Unsupported? <==> !r.acquired && r.held && r.lease.Some? && r.lease.value.id == id
  {
    if !r.acquired || r.lease == None || r.lease.value.id != id then
      if r.lease.Some? && r.lease.value.id == id && r.held then Unsupported else LeaseLost
    else Extended(r.lease.value)
  }

  /** Whether a lease is still live when a renewal is repeated, which is later if the first
      request extended it unseen. */
  predicate LiveAtRepeat(lease: Lease, first: Fate, now: nat, later: nat, ttl: nat) {
    later < lease.expires || (first == AnswerLost && now < lease.expires && later < now + ttl)
  }

  /** A renewal that succeeds keeps the identity and creation time of the lease and
      makes it last the full time from the answered request on; one that is refused leaves
      the file alone. It succeeds exactly when an answered request finds the lease live. */
  method RenewLease(file: LeaseFile, held: Lease, ttl: nat, now: nat, later: nat, first: Fate, second: Fate, cancelled: bool)
    returns (result: RenewResult)
    requires 0 < ttl && now <= later
    modifies file
    ensures result.Extended? ==>
              && old(file.slot).Some? && file.slot == Some(result.lease)
              && result.lease.id == held.id == old(file.slot).value.id
              && result.lease.created == old(file.slot).value.created
              && old(file.slot).value.expires <= result.lease.expires
              && (if first == Answered then now else later) + ttl <= result.lease.expires
    ensures result.Extended? <==>
              && LastAnswered(first, second, cancelled) && old(file.slot).Some? && old(file.slot).value.id == held.id
              && (if first == Answered then now < old(file.slot).value.expires else LiveAtRepeat(old(file.slot).value, first, now, later, ttl))
    ensures old(file.slot).None? || old(file.slot).value.id != held.id ==> file.slot == old(file.slot) && !result.Extended?
  {
    var response := Response(false, None, false);
    var failed := first != Answered;
    if first == Answered || first == AnswerLost {
      response := file.Renew(held.id, now, ttl);
    }
    if failed && first != HttpError && !cancelled {
      failed := second != Answered;
      if second == Answered || second == AnswerLost {
        response := file.Renew(held.id, later, ttl);
      }
    }
    if failed { return RequestFailed; }
    result := ReadRenewal(response, held.id);
  }
}
