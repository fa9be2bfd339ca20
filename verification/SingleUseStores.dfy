/** The two stores that make things usable once, spent nonces and enrollment codes: core/go/store.go. */
module SingleUseStores {
  import opened ByteStrings

  // ---- spent nonces ---------------------------------------------------------

  /** Nonce id to the second its record expires. */
  type Spent = map<Bytes, int>

  predicate Claimable(m: Spent, id: Bytes, now: int)
  {
    id in m ==> now >= m[id]
  }

  function ClaimIn(m: Spent, id: Bytes, now: int, ttl: int): Spent
  {
    if Claimable(m, id, now) then m[id := now + ttl] else m
  }

  function SweepSpent(m: Spent, now: int): Spent
  {
    map id | id in m && now < m[id] :: m[id]
  }

  class NonceStore {
    var spent: Spent

    constructor ()
      ensures spent == map[]
    {
      spent := map[];
    }

    method Claim(id: Bytes, now: int, ttl: int) returns (ok: bool)
      modifies this
      ensures ok <==> (id in old(spent) ==> now >= old(spent)[id])
      ensures spent == if ok then old(spent)[id := now + ttl] else old(spent)
    {
      if id in spent && now < spent[id] {
        return false;
      }
      spent := spent[id := now + ttl];
      ok := true;
    }

    method Sweep(now: int) returns (n: nat)
      modifies this
      ensures spent == SweepSpent(old(spent), now)
      ensures forall k :: (k in spent <==> k in old(spent) && now < old(spent)[k]) && (k in spent ==> spent[k] == old(spent)[k])
      ensures n == |old(spent)| - |spent|
    {
      n := 0;
      ghost var m := spent;
      var todo := spent.Keys;
      while todo != {}
        invariant todo <= spent.Keys <= m.Keys
        invariant forall k :: k in spent ==> spent[k] == m[k]
        invariant forall k :: k in m && k !in spent ==> now >= m[k]
        invariant forall k :: k in spent && k !in todo ==> now < m[k]
        invariant n == |m| - |spent|
        decreases todo
      {
        var k :| k in todo;
        todo := todo - {k};
        if now >= spent[k] {
          assert (spent - {k}).Keys == spent.Keys - {k};
          spent := spent - {k};
          n := n + 1;
        }
      }
      assert spent == SweepSpent(m, now);
    }
  }

  // ---- enrollment codes -----------------------------------------------------

  datatype EnrollCode = EnrollCode(kid: Bytes, origins: seq<Bytes>, exp: int)

  type Codes = map<Bytes, EnrollCode>

  function Live(m: Codes, code: Bytes, now: int): Option<EnrollCode>
  {
    if code in m && now < m[code].exp then Some(m[code]) else None
  }

  function SweepCodes(m: Codes, now: int): Codes
  {
    map k | k in m && now < m[k].exp :: m[k]
  }

  class EnrollStore {
    var codes: Codes

    constructor ()
      ensures codes == map[]
    {
      codes := map[];
    }

    method Put(code: Bytes, c: EnrollCode)
      modifies this
      ensures codes == old(codes)[code := c]
    {
      codes := codes[code := c];
    }

    method Peek(code: Bytes, now: int) returns (r: Option<EnrollCode>)
      ensures r == Live(codes, code, now)
      ensures r.Some? <==> code in codes && now < codes[code].exp
      ensures r.Some? ==> r.value == codes[code]
    {
      if code !in codes || now >= codes[code].exp {
        return None;
      }
      r := Some(codes[code]);
    }

    /** Delete-after-read: the code is gone even when it turns out to have expired. */
    method Consume(code: Bytes, now: int) returns (r: Option<EnrollCode>)
      modifies this
      ensures r == Live(old(codes), code, now)
      ensures r.Some? <==> code in old(codes) && now < old(codes)[code].exp
      ensures r.Some? ==> r.value == old(codes)[code]
      ensures codes == old(codes) - {code}
    {
      if code !in codes {
        return None;
      }
      var c := codes[code];
      codes := codes - {code};
      if now >= c.exp {
        return None;
      }
      r := Some(c);
    }

    method Sweep(now: int) returns (n: nat)
      modifies this
      ensures codes == SweepCodes(old(codes), now)
      ensures forall k :: (k in codes <==> k in old(codes) && now < old(codes)[k].exp) && (k in codes ==> codes[k] == old(codes)[k])
      ensures n == |old(codes)| - |codes|
    {
      n := 0;
      ghost var m := codes;
      var todo := codes.Keys;
      while todo != {}
        invariant todo <= codes.Keys <= m.Keys
        invariant forall k :: k in codes ==> codes[k] == m[k]
        invariant forall k :: k in m && k !in codes ==> now >= m[k].exp
        invariant forall k :: k in codes && k !in todo ==> now < m[k].exp
        invariant n == |m| - |codes|
        decreases todo
      {
        var k :| k in todo;
        todo := todo - {k};
        if now >= codes[k].exp {
          assert (codes - {k}).Keys == codes.Keys - {k};
          codes := codes - {k};
          n := n + 1;
        }
      }
      assert codes == SweepCodes(m, now);
    }
  }
}
