/**
 src/daemon/dbus/gsignond-dbus-auth-service-adapter.c: who holds the adapter.  A
 handler holds it while it runs, and the list of identities while it is not
 empty.
 */
module AuthServiceAdapter {
  import opened Ordering
  import opened DisposeTimer
  import opened Disposable

  class AuthServiceAdapter {
    const base: Disposable
    /** The identity objects handed out, oldest first. */
    var identities: seq<nat>
    ghost var running: nat

    /** Keep-alive conservation. */
    ghost predicate Valid()
      reads this, base
    {
      && Sound(base.State())
      && base.keep == running + (if identities == [] then 0 else 1)
    }

    constructor (timeout: nat)
      ensures Valid() && fresh(base) && identities == [] && running == 0 && base.timeout == timeout
    {
      base := new Disposable();
      identities, running := [], 0;
      new;
      base.SetTimeout(timeout);
    }

    /** No source can fire while a handler runs or an identity is held. */
    lemma NeverFiresWhileHeld()
      requires Valid()
      ensures base.armed != {} <==> running == 0 && identities == [] && base.timeout != 0
    {
    }

    method Enter()
      requires Valid()
      modifies this, base
      ensures Valid() && running == old(running) + 1 && identities == old(identities)
    {
      base.SetAutoDispose(false);
      running := running + 1;
    }

    method Leave()
      requires Valid() && running > 0
      modifies this, base
      ensures Valid() && running == old(running) - 1 && identities == old(identities)
    {
      base.SetAutoDispose(true);
      running := running - 1;
    }

    /** _create_and_cache_dbus_identity */
    method CreateAndCacheIdentity(identity: nat)
      requires Valid()
      modifies this, base
      ensures Valid() && identities == old(identities) + [identity] && running == old(running)
    {
      if |identities| == 0 { base.SetAutoDispose(false); }
      identities := identities + [identity];
    }

    /** _on_identity_disposed, for an identity that is in the list */
    method OnIdentityDisposed(i: nat)
      requires Valid() && i < |identities|
      modifies this, base
      ensures Valid() && identities == old(identities)[..i] + old(identities)[i + 1..] && running == old(running)
    {
      identities := identities[..i] + identities[i + 1..];
      if |identities| == 0 { base.SetAutoDispose(true); }
    }

    /** _handle_register_new_identity and _handle_get_identity: identity is None when there is none. */
    method HandleIdentity(identity: Option<nat>)
      requires Valid()
      modifies this, base
      ensures Valid() && running == old(running)
      ensures identities == if identity == None then old(identities) else old(identities) + [identity.value]
    {
      Enter();
      if identity.Some? { CreateAndCacheIdentity(identity.value); }
      Leave();
    }

    /** The handlers that hand nothing out. */
    method HandleQuery()
      requires Valid()
      modifies this, base
      ensures Valid() && running == old(running) && identities == old(identities)
    {
      Enter();
      Leave();
    }
  }
}
