/** The status shown on the shares page, against what a redemption would actually be allowed to do. */
module ShareStatus {
  import opened Basics
  import opened Tables
  import opened Clock

  /** The listed share: its instants are the stored milliseconds read back. */
  datatype ListItem = ListItem(expiresAt: int, maxDownloads: nat, downloadCount: nat, revokedAt: Option<int>) {
    predicate IsRevoked() { revokedAt.Some? }

    predicate IsExpired(now: int) { expiresAt < now }

    predicate IsExhausted() { downloadCount >= maxDownloads }

    predicate IsActive(now: int) { !IsRevoked() && !IsExpired(now) && !IsExhausted() }

    function StatusLabel(now: int): string {
      if IsRevoked() then "revoked"
      else if IsExpired(now) then "expired"
      else if IsExhausted() then "downloaded"
      else "active"
    }
  }

  function Listed(s: Share): ListItem {
    ListItem(Instant(s.expiresAt), s.maxDownloads, s.downloadCount,
             if s.revokedAt.None? then None else Some(Instant(s.revokedAt.value)))
  }

  /** Not held back by revocation or by its limit. */
  predicate Open(s: Share) {
    s.revokedAt.None? && s.downloadCount < s.maxDownloads
  }

  /**
   From the epoch on, the page and the redemption agree to the nanosecond: what can be consumed is shown
   active, and the only instant at which a share is shown active and cannot be consumed is the one equal
   to its stored expiry. A consumption also implies that the expiry as requested, before rounding, is ahead.
   */
  lemma StatusAgrees(s: Share, now: int, requested: int)
    requires now >= 0
    ensures Consumable(s, Millis(now)) ==> Listed(s).IsActive(now)
    ensures Listed(s).IsActive(now) && !Consumable(s, Millis(now)) <==> Open(s) && now == Instant(s.expiresAt)
    ensures Consumable(s, Millis(now)) && s.expiresAt == Millis(requested) ==> now < requested
  {
    MillisAfter(now, s.expiresAt);
    if requested >= 0 {
      MillisTruncates(requested);
    } else {
      MillisMonotone(requested, 0);
      MillisMonotone(0, now);
    }
  }

  /** Before the epoch rounding goes the other way; for every instant, exactly this is shown and refused. */
  lemma StatusDiffers(s: Share, now: int)
    ensures Listed(s).IsActive(now) && !Consumable(s, Millis(now))
       <==> Open(s) && now <= Instant(s.expiresAt) && s.expiresAt <= Millis(now)
    ensures Open(s) && s.expiresAt == 0 && -NANOS_PER_MILLI < now <= 0 ==>
              Listed(s).IsActive(now) && !Consumable(s, Millis(now))
  {
    if now < 0 {
      assert -now / NANOS_PER_MILLI * NANOS_PER_MILLI <= -now;
    }
  }

  /** The label is "active" exactly for active shares, and revocation takes precedence over the rest. */
  lemma LabelPrecedence(i: ListItem, now: int)
    ensures i.StatusLabel(now) == "active" <==> i.IsActive(now)
    ensures i.StatusLabel(now) == "revoked" <==> i.revokedAt.Some?
    ensures i.StatusLabel(now) == "expired" <==> i.revokedAt.None? && i.expiresAt < now
    ensures i.StatusLabel(now) == "downloaded"
       <==> i.revokedAt.None? && i.expiresAt >= now && i.downloadCount >= i.maxDownloads
  {
    assert "active"[0] == 'a' && "revoked"[0] == 'r' && "expired"[0] == 'e' && "downloaded"[0] == 'd';
  }

  // ----- purging only what has expired ------------------------------------------------

  /** From here up, a grace period taken as i64 is negative and the epoch's cutoff a representable later instant. */
  const WRAPS: nat := 0x1_0000_0000_0000_0000 - 253402300799

  /** A purge at `now` deletes this row although it could still be redeemed. */
  predicate DeletesLive(grace: nat, now: int, s: Share) {
    && now >= 0 && Representable(now) && Representable(now - SignedSeconds(grace) * NANOS_PER_SECOND)
    && s.expiresAt < PurgeCutoff(now, grace) && Consumable(s, Millis(now))
  }

  /**
   `purge_expired` takes its u64 grace period `as i64`. It deletes shares that can no longer be redeemed and no
   others, at every instant from the epoch on and from every table, exactly when the grace period is below
   `WRAPS`. From there up the cutoff lies in the future, and a share that could still be redeemed is deleted.
   */
  lemma PurgeRemovesOnlyExpired(grace: nat)
    requires grace < 0x1_0000_0000_0000_0000
    ensures (forall now: int, s: Share :: !DeletesLive(grace, now, s)) <==> grace < WRAPS
  {
    if grace < WRAPS {
      forall now: int, s: Share ensures !DeletesLive(grace, now, s) {
        if grace < 0x8000_0000_0000_0000 {
          MillisMonotone(now - SignedSeconds(grace) * NANOS_PER_SECOND, now);
        }
      }
    } else {
      var id: Uuid := "00000000-0000-0000-0000-000000000000";
      var zero: Digest := seq(32, _ => 0 as byte);
      var s := Share(id, id, id, zero, zero, 1, 1, 0, None, id, 0, None);
      MillisMonotone(NANOS_PER_SECOND, 0 - SignedSeconds(grace) * NANOS_PER_SECOND);
      assert DeletesLive(grace, 0, s);
    }
  }
}
