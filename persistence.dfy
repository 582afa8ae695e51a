/**
 * ApplicationDbContext: the soft-delete pass that runs over the change tracker's
 * entries before every save.
 */
module Persistence {
  import opened Common

  /** The lifecycle fields of IBaseEntity. */
  datatype Lifecycle = Lifecycle(createdAt: Instant, deletedAt: Option<Instant>, isActive: bool)

  /** The initial lifecycle of a new entity (BaseEntity's property initialisers). */
  function NewLifecycle(now: Instant): (l: Lifecycle)
    ensures l.isActive && l.deletedAt == None && l.createdAt == now
  {
    Lifecycle(now, None, true)
  }

  /** EF Core's EntityState. */
  datatype EntityState = Detached | Unchanged | Deleted | Modified | Added

  /** A tracked entity: one implementing IBaseEntity exposes its lifecycle; any other does not. */
  datatype Entity<P> = WithLifecycle(life: Lifecycle, data: P) | WithoutLifecycle(data: P)

  /** A change-tracker entry: the pending operation and the entity it applies to. */
  datatype Entry<P> = Entry(state: EntityState, entity: Entity<P>)

  /** What the pass guarantees of every entry it has seen. */
  predicate Settled<P>(e: Entry<P>)
  {
    e.entity.WithLifecycle? ==>
      && e.state != Deleted
      && (e.state == Modified && !e.entity.life.isActive ==> e.entity.life.deletedAt.Some?)
  }

  /** The effect of the pass on one entry. */
  function Intercept<P>(e: Entry<P>, now: Instant): (r: Entry<P>)
    // the entity's own data and kind never change; the pass always leaves a settled entry
    ensures r.entity.data == e.entity.data && r.entity.WithLifecycle? == e.entity.WithLifecycle?
    ensures Settled(r)
    // entities without lifecycle, and entries that are neither added, modified nor deleted, are untouched
    ensures e.entity.WithoutLifecycle? || e.state in {Detached, Unchanged} ==> r == e
    // an insert is stamped and forced active
    ensures e.entity.WithLifecycle? && e.state == Added ==>
              && r.state == Added && r.entity.life.createdAt == now && r.entity.life.isActive
              && r.entity.life.deletedAt == e.entity.life.deletedAt
    // an update that stays active, or whose deletion is already stamped, is untouched
    ensures e.entity.WithLifecycle? && e.state == Modified && (e.entity.life.isActive || e.entity.life.deletedAt.Some?) ==>
              r == e
    // an update to inactive with no deletion stamp gets one
    ensures e.entity.WithLifecycle? && e.state == Modified && !e.entity.life.isActive && e.entity.life.deletedAt.None? ==>
              && r.state == Modified && r.entity.life.deletedAt == Some(now)
              && r.entity.life.isActive == e.entity.life.isActive && r.entity.life.createdAt == e.entity.life.createdAt
    // a physical delete becomes a modification that deactivates and stamps, whatever the old stamp was
    ensures e.entity.WithLifecycle? && e.state == Deleted ==>
              && r.state == Modified && !r.entity.life.isActive && r.entity.life.deletedAt == Some(now)
              && r.entity.life.createdAt == e.entity.life.createdAt
  {
    match e.entity
    case WithoutLifecycle(_) => e
    case WithLifecycle(life, data) =>
      match e.state
      case Added => Entry(Added, WithLifecycle(life.(createdAt := now, isActive := true), data))
      case Modified =>
        if !life.isActive && life.deletedAt == None
        then Entry(Modified, WithLifecycle(life.(deletedAt := Some(now)), data))
        else e
      case Deleted => Entry(Modified, WithLifecycle(life.(isActive := false, deletedAt := Some(now)), data))
      case _ => e
  }

  /** The pass over a whole list of entries, entry by entry, order kept. */
  function SoftDeletePass<P>(s: seq<Entry<P>>, now: Instant): (r: seq<Entry<P>>)
    ensures |r| == |s|
    ensures forall i :: 0 <= i < |s| ==> r[i] == Intercept(s[i], now)
    // no lifecycle entry is left as a physical delete, and every inactive modified one is stamped
    ensures forall i :: 0 <= i < |r| ==> Settled(r[i])
  {
    if s == [] then [] else [Intercept(s[0], now)] + SoftDeletePass(s[1..], now)
  }

  /** Running the pass a second time at the same instant changes nothing. */
  lemma InterceptIdempotent<P>(e: Entry<P>, now: Instant)
    ensures Intercept(Intercept(e, now), now) == Intercept(e, now)
  {
  }

  /** The number of entries EF Core writes: those added, modified or deleted. */
  function PendingWrites<P>(s: seq<Entry<P>>): nat
  {
    if s == [] then 0 else (if s[0].state in {Added, Modified, Deleted} then 1 else 0) + PendingWrites(s[1..])
  }

  /** The pass turns deletes into modifications, so the base save writes exactly as many rows as before. */
  lemma {:induction false} PassKeepsPendingWrites<P>(s: seq<Entry<P>>, now: Instant)
    ensures PendingWrites(SoftDeletePass(s, now)) == PendingWrites(s)
  {
    if s != [] {
      PassKeepsPendingWrites(s[1..], now);
      assert SoftDeletePass(s, now)[1..] == SoftDeletePass(s[1..], now);
    }
  }

  /** UpdateSoftDeleteStatuses: one pass over the entries, rewriting each in place. */
  method UpdateSoftDeleteStatuses<P>(entries: array<Entry<P>>, now: Instant)
    modifies entries
    ensures entries[..] == SoftDeletePass(old(entries[..]), now)
  {
    for i := 0 to entries.Length
      invariant forall k :: 0 <= k < i ==> entries[k] == Intercept(old(entries[k]), now)
      invariant forall k :: i <= k < entries.Length ==> entries[k] == old(entries[k])
    {
      var entry := entries[i];
      match entry.entity {
        case WithLifecycle(life, data) =>
          match entry.state {
            case Added =>
              life := life.(createdAt := now);
              life := life.(isActive := true);
              entries[i] := Entry(Added, WithLifecycle(life, data));
            case Modified =>
              if !life.isActive && life.deletedAt == None {
                life := life.(deletedAt := Some(now));
                entries[i] := Entry(Modified, WithLifecycle(life, data));
              }
            case Deleted =>
              life := life.(isActive := false);
              life := life.(deletedAt := Some(now));
              entries[i] := Entry(Modified, WithLifecycle(life, data));
            case _ =>
          }
        case WithoutLifecycle(_) =>
      }
    }
  }

  /** SaveChanges(): the pass, then the base save, which reports how many entries it wrote. */
  method SaveChanges<P>(entries: array<Entry<P>>, now: Instant) returns (written: nat)
    modifies entries
    ensures entries[..] == SoftDeletePass(old(entries[..]), now)
    ensures written == PendingWrites(entries[..])
  {
    UpdateSoftDeleteStatuses(entries, now);
    written := PendingWrites(entries[..]);
  }

  /** SaveChangesAsync(): the same pass before the asynchronous base save. */
  method SaveChangesAsync<P>(entries: array<Entry<P>>, now: Instant) returns (written: nat)
    modifies entries
    ensures entries[..] == SoftDeletePass(old(entries[..]), now)
    ensures written == PendingWrites(entries[..])
  {
    UpdateSoftDeleteStatuses(entries, now);
    written := PendingWrites(entries[..]);
  }
}
