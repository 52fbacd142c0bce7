/** The test session's environment (conftest.py): the write shield that takes a
    real database's address out again, and the fixture that puts a test's
    starting environment back, through that same shield. */
module EnvShield {
  datatype Option<+T> = None | Some(value: T)

  type Env = map<string, string>

  const BACKEND := "KAZMA_DB_BACKEND"
  const ISOLATION := "KAZMA_TEST_ISOLATION"

  predicate NotIsolated(env: Env) {
    ISOLATION in env && env[ISOLATION] == "0"
  }

  predicate IsAddress(key: string) {
    key == "KAZMA_DATABASE_URL" || key == "DATABASE_URL"
  }

  /** No real database's address is set. */
  predicate Shielded(env: Env) {
    forall key | IsAddress(key) :: key !in env
  }

  /** What a write through the shield leaves; `allow` is the opt-out. */
  function Wrote(env: Env, key: string, value: string, allow: bool): Env {
    if IsAddress(key) && !allow then env[BACKEND := "sqlite"] - {key} else env[key := value]
  }

  datatype Change = Set(key: string, value: string) | Unset(key: string)

  function Changed(env: Env, c: Change, allow: bool): Env {
    match c
    case Set(key, value) => Wrote(env, key, value, allow)
    case Unset(key) => env - {key}
  }

  function AllChanged(env: Env, changes: seq<Change>, allow: bool): Env {
    if changes == [] then env else Changed(AllChanged(env, changes[..|changes| - 1], allow), changes[|changes| - 1], allow)
  }

  /** While the opt-out is off, no sequence of writes and deletes leaves an
      address set. */
  lemma {:induction false} StaysShielded(env: Env, changes: seq<Change>)
    requires Shielded(env)
    ensures Shielded(AllChanged(env, changes, false))
  {
    if changes != [] {
      StaysShielded(env, changes[..|changes| - 1]);
    }
  }

  function Get(env: Env, key: string): Option<string> {
    if key in env then Some(env[key]) else None
  }

  /** What a change makes of one variable, if anything: an address that is set
      goes at once, and the backend is sqlite from then on. */
  function Leaves(c: Change, allow: bool, key: string): Option<Option<string>> {
    match c
    case Unset(k) => if k == key then Some(None) else None
    case Set(k, value) =>
      if k == "KAZMA_DATABASE_URL" || k == "DATABASE_URL" then
        if k == key then Some(if allow then Some(value) else None)
        else if key == "KAZMA_DB_BACKEND" && !allow then Some(Some("sqlite"))
        else None
      else if k == key then Some(Some(value))
      else None
  }

  /** After any changes every variable is as the last change that concerns it
      left it, or as it was. */
  lemma {:induction false} LastChangeStands(env: Env, changes: seq<Change>, allow: bool, key: string)
    ensures (forall c | c in changes :: Leaves(c, allow, key) == None) ==> Get(AllChanged(env, changes, allow), key) == Get(env, key)
    ensures forall i | 0 <= i < |changes| && Leaves(changes[i], allow, key).Some?
                       && (forall j | i < j < |changes| :: Leaves(changes[j], allow, key) == None)
              :: Get(AllChanged(env, changes, allow), key) == Leaves(changes[i], allow, key).value
  {
    hide Leaves, Changed, Get;
    if changes != [] {
      var n := |changes| - 1;
      LastChangeStands(env, changes[..n], allow, key);
      OneChange(AllChanged(env, changes[..n], allow), changes[n], allow, key);
      forall i | 0 <= i < n && Leaves(changes[i], allow, key).Some?
                 && (forall j | i < j < |changes| :: Leaves(changes[j], allow, key) == None)
        ensures Get(AllChanged(env, changes, allow), key) == Leaves(changes[i], allow, key).value {
        assert changes[..n][i] == changes[i];
      }
    }
  }

  lemma OneChange(env: Env, c: Change, allow: bool, key: string)
    ensures Get(Changed(env, c, allow), key) == if Leaves(c, allow, key).Some? then Leaves(c, allow, key).value else Get(env, key)
  {
  }

  /** Every address of the snapshot is still set as it was. */
  predicate AddressesKept(before: Env, env: Env) {
    forall key | key in before && IsAddress(key) :: key in env && env[key] == before[key]
  }

  class Process {
    var environ: Env
    const allow: bool

    constructor (start: Env, allow: bool)
      ensures environ == start && this.allow == allow
    {
      environ := start;
      this.allow := allow;
    }

    /** The shielded write: the real one first, then its undoing. */
    method SetItem(key: string, value: string)
      modifies this
      ensures environ == Wrote(old(environ), key, value, allow)
    {
      environ := environ[key := value];
      if IsAddress(key) && !allow {
        environ := environ[BACKEND := "sqlite"];
        environ := environ - {key};
      }
    }

    method DelItem(key: string)
      modifies this
      ensures environ == old(environ) - {key}
    {
      environ := environ - {key};
    }

    /** The fixture's teardown: what is new is deleted, what differs is written
        back, through the shield.  The snapshot is put back exactly when the
        opt-out is on or every address in it was left alone.  Otherwise the
        addresses that were not are gone, and all else is back but for the
        backend, which is sqlite when it was written back before them. */
    method Restore(before: Env)
      modifies this
      ensures environ == before <==> allow || AddressesKept(before, old(environ))
      ensures forall key | key in before && key != BACKEND && (allow || !IsAddress(key)) :: Get(environ, key) == Get(before, key)
      ensures !allow ==> forall key | IsAddress(key) ::
                Get(environ, key) == if Get(old(environ), key) == Get(before, key) then Get(before, key) else None
      ensures forall key | key !in before && key != BACKEND :: key !in environ
      ensures Get(environ, BACKEND) == Get(before, BACKEND) || Get(environ, BACKEND) == Some("sqlite")
    {
      RemoveNew(before);
      ghost var left := environ;
      var todo := before.Keys;
      NothingBack(before, left, allow);
      while todo != {}
        invariant todo <= before.Keys
        invariant allow || AddressesKept(before, left) ==>
                    && environ.Keys <= before.Keys
                    && (forall key | key in before && key !in todo :: key in environ && environ[key] == before[key])
                    && (forall key | key in todo :: (key in environ <==> key in left) && (key in left ==> environ[key] == left[key]))
        invariant !allow && !AddressesKept(before, left) ==> !AddressesKept(before, environ)
        invariant PartlyBack(before, left, environ, todo, allow)
        decreases todo
      {
        hide PartlyBack;
        var key :| key in todo;
        OneBack(before, left, environ, todo, key, allow);
        todo := todo - {key};
        if key !in environ || environ[key] != before[key] {
          ghost var was := environ;
          SetItem(key, before[key]);
          WriteBack(before, was, key, allow);
        }
      }
      assert left.Keys <= before.Keys && (AddressesKept(before, left) <==> AddressesKept(before, old(environ)));
      if allow || AddressesKept(before, left) {
        assert environ == before;
      }
    }

    method RemoveNew(before: Env)
      modifies this
      ensures environ == map key | key in old(environ) && key in before :: old(environ)[key]
    {
      var extra := environ.Keys - before.Keys;
      while extra != {}
        invariant extra !! before.Keys
        invariant environ == map key | key in old(environ) && (key in before || key in extra) :: old(environ)[key]
        decreases extra
      {
        var key :| key in extra;
        extra := extra - {key};
        DelItem(key);
      }
    }

    /** One test between the fixture's snapshot and its teardown: from a
        shielded start, or with the opt-out on, the test ends with exactly the
        environment it began with, whatever it wrote; without isolation, with
        what it wrote. */
    method RunTest(changes: seq<Change>)
      requires allow || Shielded(environ)
      modifies this
      ensures environ == if NotIsolated(old(environ)) then AllChanged(old(environ), changes, allow) else old(environ)
      ensures allow || Shielded(environ)
    {
      var before := environ;
      for i := 0 to |changes|
        invariant environ == AllChanged(before, changes[..i], allow)
      {
        assert changes[..i + 1][..i] == changes[..i];
        match changes[i] {
          case Set(key, value) => SetItem(key, value);
          case Unset(key) => DelItem(key);
        }
      }
      assert changes[..|changes|] == changes;
      if !allow {
        StaysShielded(before, changes);
      }
      if !NotIsolated(before) {
        Restore(before);
      }
    }
  }

  /** The variables of the snapshot so far are back as far as they can be; the
      others are as they were left. */
  ghost predicate PartlyBack(before: Env, left: Env, env: Env, todo: set<string>, allow: bool) {
    && (forall key | key in before && key !in todo && key != BACKEND && (allow || !IsAddress(key)) :: Get(env, key) == Get(before, key))
    && (!allow ==> forall key | IsAddress(key) ::
          Get(env, key) == if key in todo || Get(left, key) == Get(before, key) then Get(left, key) else None)
    && (forall key | key !in before && key != BACKEND :: key !in env)
    && (BACKEND !in todo ==> Get(env, BACKEND) == Get(before, BACKEND) || Get(env, BACKEND) == Some("sqlite"))
    && (BACKEND !in before ==> Get(env, BACKEND) == None || Get(env, BACKEND) == Some("sqlite"))
  }

  lemma NothingBack(before: Env, left: Env, allow: bool)
    requires left.Keys <= before.Keys
    ensures PartlyBack(before, left, left, before.Keys, allow)
  {
  }

  lemma OneBack(before: Env, left: Env, env: Env, todo: set<string>, key: string, allow: bool)
    requires PartlyBack(before, left, env, todo, allow) && key in todo && todo <= before.Keys
    ensures var now := if key !in env || env[key] != before[key] then Wrote(env, key, before[key], allow) else env;
            PartlyBack(before, left, now, todo - {key}, allow)
  {
  }

  /** Writing one entry of the snapshot back loses a lost address for good:
      the write is undone, and the deleted key stays out. */
  lemma WriteBack(before: Env, env: Env, key: string, allow: bool)
    requires key in before && (key !in env || env[key] != before[key])
    ensures var after := Wrote(env, key, before[key], allow);
            !allow && !AddressesKept(before, env) ==> !AddressesKept(before, after)
  {
    var after := Wrote(env, key, before[key], allow);
    if !allow && !AddressesKept(before, env) {
      var lost :| lost in before && IsAddress(lost) && !(lost in env && env[lost] == before[lost]);
      assert !(lost in after && after[lost] == before[lost]);
    }
  }
}
