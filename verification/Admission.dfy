/** The gateway side of the handshake: register the key, lease an address, answer, and unwind the
    registration when a later step fails. */
module Admissions {
  import opened Basics
  import opened HelloWire
  import opened GatewaySpec
  import opened Allocators
  import opened DataPlanes

  class Admitter {
    const store: SessionStore
    /** The leaser; null while the exit path is off. */
    var alloc: Allocator?

    constructor (store: SessionStore)
      ensures this.store == store && alloc == null
    {
      this.store := store;
      alloc := null;
    }

    ghost predicate Valid()
      reads this, alloc
    {
      alloc != null ==> alloc.Valid()
    }

    ghost function State(): Gate
      reads this, alloc, store
    {
      Gate(store.keys, if alloc == null then None else Some(alloc.State()))
    }

    /** The tables and the answer after one ClientHello, exactly as the handshake function says. */
    method Handshake(hello: Bytes, env: Env) returns (r: Result<Admission, Refusal>)
      requires Valid()
      modifies store, alloc
      ensures Valid()
      ensures var a := GatewaySpec.Handshake(old(State()), env, hello); State() == a.gate && r == a.result
    {
      hide Checked, ServerHelloBytes, LeaseFor, AllocateIn, Allocator.Valid;
      var checked := Check(hello, env);
      if checked.Err? {
        return Err(checked.error);
      }
      var (id, key, pub) := checked.value;
      var registered := store.Register(id, key);
      if !registered {
        return Err(SessionReused);
      }
      var ip := None;
      if alloc != null {
        NoneLeavesAll(alloc.State(), id);
        ip := alloc.Allocate(id);
        if ip.None? {
          store.Forget(id);
          assert store.keys == old(store.keys);
          return Err(LeaseFailed);
        }
      }
      var m := Reply(env, pub, id, ip);
      var reply := EncodeServerHello(m);
      if reply.Err? {
        store.Forget(id);
        assert store.keys == old(store.keys);
        return Err(CannotAnswer);
      }
      return Ok(Admission(reply.value, id, ip));
    }

    /** Decoding, freshness, key agreement and entitlement, in that order; nothing is stored. */
    method Check(hello: Bytes, env: Env) returns (r: Result<(SessionId, Bytes, Bytes), Refusal>)
      ensures r == Checked(env, hello)
    {
      var decoded := DecodeClientHello(hello);
      if decoded.Err? {
        return Err(BadHello(decoded.error));
      }
      var m := decoded.value;
      if !env.isFresh(m.timestamp) {
        return Err(StaleHello);
      }
      if env.keyPair.None? {
        return Err(NoKeyPair);
      }
      var (priv, pub) := env.keyPair.value;
      var key := env.derive(priv, m.ephemeral, m.id);
      if key.None? {
        return Err(NoSharedKey);
      }
      if !env.admits(m.token) {
        return Err(NotEntitled);
      }
      return Ok((m.id, key.value, pub));
    }
  }
}
