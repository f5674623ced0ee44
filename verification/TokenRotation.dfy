/** Rotation of a personal access token by compare and swap, its revocation and its check:
    admin/models/user_auth_token.go, admin/apis/user_auth_token.go, admin/models/user.go. */
module TokenRotation {
  import opened Text

  const PREFIX := "sha256:"
  const FINGERPRINT_LENGTH := 12

  /** The row of one token. */
  datatype Row = Row(userId: string, hash: string, fingerprint: string, expiredAt: int, revoked: bool)

  predicate LowerHex(c: char) {
    '0' <= c <= '9' || 'a' <= c <= 'f'
  }

  /** The versioned SHA-256 representation. */
  predicate IsValidHash(digest: string) {
    && |digest| == |PREFIX| + 64 && digest[..|PREFIX|] == PREFIX
    && forall i :: |PREFIX| <= i < |digest| ==> LowerHex(digest[i])
  }

  function Fingerprint(digest: string): string {
    if IsValidHash(digest) then digest[|PREFIX|..|PREFIX| + FINGERPRINT_LENGTH] else ""
  }

  /** HashUserAuthToken, of which only this is known: well-formed and without collisions. */
  ghost predicate IsDigest(hash: string -> string) {
    (forall t :: IsValidHash(hash(t))) && forall t, u :: hash(t) == hash(u) ==> t == u
  }

  /** VerifyUserAuthToken */
  predicate Verifies(hash: string -> string, token: string, digest: string) {
    IsValidHash(digest) && hash(token) == digest
  }

  /** CheckToken accepts the secret of this row. */
  predicate Accepts(hash: string -> string, row: Row, token: string, now: int) {
    token != "" && row.expiredAt >= now && !row.revoked && Verifies(hash, token, row.hash)
  }

  /** compareAndSwapUserAuthTokenDigest: whether the update matches the row, and its effect. */
  predicate Matches(row: Row, user: string, oldHash: string) {
    row.userId == user && !row.revoked && row.hash == oldHash
  }

  function Swapped(row: Row, newHash: string, expiredAt: int): Row {
    row.(hash := newHash, fingerprint := Fingerprint(newHash), expiredAt := expiredAt)
  }

  function RevokedRow(row: Row, user: string): Row {
    if row.userId == user then row.(revoked := true) else row
  }

  /** Whether a rotation goes on after reading the row. */
  predicate Rotatable(row: Row, user: string) {
    row.userId == user && !row.revoked && IsValidHash(row.hash)
  }

  // ----- interleaved rotations

  /** A rotation: it has read a digest, made a secret, and either returned it or failed. */
  datatype Rotation =
    | Read(user: string, oldHash: string)
    | Made(user: string, oldHash: string, token: string)
    | Returned(token: string)
    | Failed

  /** How the database answers the update: as it went, with an error and nothing stored, or
      with an error although it was stored. */
  datatype Fault = NoFault | Lost | Unreported

  /** A swap that was stored: which rotation replaced which digest by that of which secret. */
  datatype Swap = Swap(rotation: nat, oldHash: string, token: string)

  datatype State = State(row: Row, rotations: map<nat, Rotation>, issued: set<string>, swaps: seq<Swap>)

  datatype Action =
    | Start(r: nat, user: string)               // read the row
    | Generate(r: nat, token: string)           // a secret never issued before
    | CompareAndSwap(r: nat, expiredAt: int, fault: Fault)
    | Revoke(user: string)

  function Moved(s: State, r: nat, x: Rotation): State {
    s.(rotations := s.rotations[r := x])
  }

  function Apply(s: State, a: Action, hash: string -> string): State {
    match a
    case Start(r, user) =>
      if r in s.rotations then s
      else Moved(s, r, if Rotatable(s.row, user) then Read(user, s.row.hash) else Failed)
    case Generate(r, token) =>
      if r !in s.rotations || !s.rotations[r].Read? || token in s.issued then s
      else Moved(s, r, Made(s.rotations[r].user, s.rotations[r].oldHash, token)).(issued := s.issued + {token})
    case CompareAndSwap(r, expiredAt, fault) =>
      if r !in s.rotations || !s.rotations[r].Made? then s
      else
        var x := s.rotations[r];
        if fault.Lost? || !Matches(s.row, x.user, x.oldHash) then Moved(s, r, Failed)
        else Moved(s, r, if fault.Unreported? then Failed else Returned(x.token)).(row := Swapped(s.row, hash(x.token), expiredAt), swaps := s.swaps + [Swap(r, x.oldHash, x.token)])
    case Revoke(user) => s.(row := RevokedRow(s.row, user))
  }

  function Run(s: State, actions: seq<Action>, hash: string -> string): State {
    if actions == [] then s else Apply(Run(s, actions[..|actions| - 1], hash), actions[|actions| - 1], hash)
  }

  // ----- the invariant

  /** The digest after the first n swaps. */
  function DigestAt(first: string, swaps: seq<Swap>, n: nat, hash: string -> string): string
    requires n <= |swaps|
  {
    if n == 0 then first else hash(swaps[n - 1].token)
  }

  /** Each swap replaced the digest the one before it had stored. */
  ghost predicate Chained(first: string, swaps: seq<Swap>, stored: string, hash: string -> string) {
    && (forall i :: 0 <= i < |swaps| ==> swaps[i].oldHash == DigestAt(first, swaps, i, hash))
    && stored == DigestAt(first, swaps, |swaps|, hash)
  }

  /** A stored digest is never stored again. */
  ghost predicate NeverAgain(first: string, swaps: seq<Swap>, hash: string -> string) {
    forall i, j :: 0 <= i < j <= |swaps| ==> DigestAt(first, swaps, i, hash) != DigestAt(first, swaps, j, hash)
  }

  /** Secrets in use were issued; one still in the hands of a rotation is not stored, has no
      second holder, and the first digest is not that of a later secret. */
  ghost predicate Fresh(first: string, s: State, hash: string -> string, initial: set<string>) {
    && initial <= s.issued
    && (forall t :: hash(t) == first ==> t in initial)
    && (forall i :: 0 <= i < |s.swaps| ==> s.swaps[i].token in s.issued && s.swaps[i].token !in initial)
    && (forall r :: r in s.rotations && s.rotations[r].Made? ==> Pending(s, r, initial))
  }

  ghost predicate Pending(s: State, r: nat, initial: set<string>)
    requires r in s.rotations && s.rotations[r].Made?
  {
    var token := s.rotations[r].token;
    && token in s.issued && token !in initial
    && (forall i :: 0 <= i < |s.swaps| ==> s.swaps[i].token != token)
    && (forall q :: q in s.rotations && s.rotations[q].Made? && s.rotations[q].token == token ==> q == r)
  }

  /** Who returned a secret made the swap that stored it; who swapped returned the secret, or
      failed because of an error that came with the swap; each rotation swaps once. */
  ghost predicate Winners(s: State) {
    && (forall r :: r in s.rotations && s.rotations[r].Returned? ==> HasSwap(s, r, s.rotations[r].token))
    && (forall i :: 0 <= i < |s.swaps| ==>
          s.swaps[i].rotation in s.rotations
          && (s.rotations[s.swaps[i].rotation] == Returned(s.swaps[i].token) || s.rotations[s.swaps[i].rotation] == Failed))
    && (forall i, j :: 0 <= i < j < |s.swaps| ==> s.swaps[i].rotation != s.swaps[j].rotation)
  }

  ghost predicate HasSwap(s: State, r: nat, token: string) {
    exists i :: 0 <= i < |s.swaps| && s.swaps[i].rotation == r && s.swaps[i].token == token
  }

  ghost predicate Inv(first: string, s: State, hash: string -> string, initial: set<string>) {
    Chained(first, s.swaps, s.row.hash, hash) && NeverAgain(first, s.swaps, hash) && Fresh(first, s, hash, initial) && Winners(s)
  }

  /** A row before any rotation; `initial` are the secrets issued so far. The digest may be
      malformed, but is not that of a secret yet to be issued. */
  ghost predicate Initial(s: State, hash: string -> string) {
    s.rotations == map[] && s.swaps == [] && forall t :: hash(t) == s.row.hash ==> t in s.issued
  }

  lemma WinnersKept(s: State, t: State)
    requires Winners(s) && t.swaps == s.swaps
    requires forall q :: q in t.rotations && t.rotations[q].Returned? ==> q in s.rotations && s.rotations[q] == t.rotations[q]
    requires forall q :: q in s.rotations && (s.rotations[q].Returned? || s.rotations[q].Failed?) ==> q in t.rotations && s.rotations[q] == t.rotations[q]
    ensures Winners(t)
  {
    forall q | q in t.rotations && t.rotations[q].Returned? ensures HasSwap(t, q, t.rotations[q].token) {
      assert HasSwap(s, q, s.rotations[q].token);
    }
  }

  lemma StepKeeps(first: string, s: State, r: nat, x: Rotation, hash: string -> string, initial: set<string>)
    requires Inv(first, s, hash, initial) && (r in s.rotations ==> s.rotations[r].Made?)
    requires x.Read? || x.Failed?
    ensures Inv(first, Moved(s, r, x), hash, initial)
  {
    hide Chained, NeverAgain;
    var t := Moved(s, r, x);
    WinnersKept(s, t);
    hide Winners;
    forall q | q in t.rotations && t.rotations[q].Made? ensures Pending(t, q, initial) {
      assert Pending(s, q, initial);
    }
  }

  lemma GenerateKeeps(first: string, s: State, r: nat, token: string, hash: string -> string, initial: set<string>)
    requires Inv(first, s, hash, initial) && r in s.rotations && s.rotations[r].Read? && token !in s.issued
    ensures Inv(first, Apply(s, Generate(r, token), hash), hash, initial)
  {
    var t := Apply(s, Generate(r, token), hash);
    WinnersKept(s, t);
    forall q | q in t.rotations && t.rotations[q].Made? ensures Pending(t, q, initial) {
      if q != r { assert Pending(s, q, initial); }
    }
    hide Winners, NeverAgain;
  }

  /** One more swap, of the stored digest for one never stored. */
  lemma ChainGrows(first: string, swaps: seq<Swap>, swap: Swap, stored: string, hash: string -> string)
    requires Chained(first, swaps, stored, hash) && NeverAgain(first, swaps, hash) && swap.oldHash == stored
    requires forall n :: 0 <= n <= |swaps| ==> DigestAt(first, swaps, n, hash) != hash(swap.token)
    ensures Chained(first, swaps + [swap], hash(swap.token), hash) && NeverAgain(first, swaps + [swap], hash)
  {
    var more := swaps + [swap];
    forall n | 0 <= n <= |swaps| ensures DigestAt(first, more, n, hash) == DigestAt(first, swaps, n, hash) {
    }
    assert DigestAt(first, more, |more|, hash) == hash(swap.token);
    hide DigestAt;
    forall i | 0 <= i < |more| ensures more[i].oldHash == DigestAt(first, more, i, hash) {
      assert i < |swaps| ==> more[i] == swaps[i];
    }
    forall i, j | 0 <= i < j <= |more| ensures DigestAt(first, more, i, hash) != DigestAt(first, more, j, hash) {
      assert DigestAt(first, more, i, hash) == DigestAt(first, swaps, i, hash);
    }
  }

  lemma SwapNew(first: string, s: State, r: nat, hash: string -> string, initial: set<string>)
    requires IsDigest(hash) && Inv(first, s, hash, initial) && r in s.rotations && s.rotations[r].Made?
    ensures forall n :: 0 <= n <= |s.swaps| ==> DigestAt(first, s.swaps, n, hash) != hash(s.rotations[r].token)
  {
    assert Pending(s, r, initial);
  }

  lemma SwapKeeps(first: string, s: State, r: nat, expiredAt: int, fault: Fault, hash: string -> string, initial: set<string>)
    requires IsDigest(hash) && Inv(first, s, hash, initial) && r in s.rotations && s.rotations[r].Made?
    requires Matches(s.row, s.rotations[r].user, s.rotations[r].oldHash) && !fault.Lost?
    ensures Inv(first, Apply(s, CompareAndSwap(r, expiredAt, fault), hash), hash, initial)
  {
    var x := s.rotations[r];
    SwapNew(first, s, r, hash, initial);
    SwapFresh(first, s, r, expiredAt, fault, hash, initial);
    SwapWinners(first, s, r, expiredAt, fault, hash, initial);
    ChainGrows(first, s.swaps, Swap(r, x.oldHash, x.token), s.row.hash, hash);
    hide Chained, NeverAgain, Fresh, Winners, IsDigest, Fingerprint;
  }

  lemma SwapFresh(first: string, s: State, r: nat, expiredAt: int, fault: Fault, hash: string -> string, initial: set<string>)
    requires Fresh(first, s, hash, initial) && r in s.rotations && s.rotations[r].Made?
    requires Matches(s.row, s.rotations[r].user, s.rotations[r].oldHash) && !fault.Lost?
    ensures Fresh(first, Apply(s, CompareAndSwap(r, expiredAt, fault), hash), hash, initial)
  {
    var t := Apply(s, CompareAndSwap(r, expiredAt, fault), hash);
    assert Pending(s, r, initial);
    forall q | q in t.rotations && t.rotations[q].Made? ensures Pending(t, q, initial) {
      assert Pending(s, q, initial);
    }
  }

  lemma SwapWinners(first: string, s: State, r: nat, expiredAt: int, fault: Fault, hash: string -> string, initial: set<string>)
    requires Winners(s) && r in s.rotations && s.rotations[r].Made?
    requires Matches(s.row, s.rotations[r].user, s.rotations[r].oldHash) && !fault.Lost?
    ensures Winners(Apply(s, CompareAndSwap(r, expiredAt, fault), hash))
  {
    var t := Apply(s, CompareAndSwap(r, expiredAt, fault), hash);
    forall q | q in t.rotations && t.rotations[q].Returned? ensures HasSwap(t, q, t.rotations[q].token) {
      if q == r {
        assert t.swaps[|s.swaps|].rotation == r;
      } else {
        assert HasSwap(s, q, s.rotations[q].token);
        var i :| 0 <= i < |s.swaps| && s.swaps[i].rotation == q && s.swaps[i].token == s.rotations[q].token;
        assert t.swaps[i] == s.swaps[i];
      }
    }
  }

  lemma ApplyKeeps(first: string, s: State, a: Action, hash: string -> string, initial: set<string>)
    requires IsDigest(hash) && Inv(first, s, hash, initial)
    ensures Inv(first, Apply(s, a, hash), hash, initial)
  {
    match a
    case Start(r, user) =>
      if r !in s.rotations {
        StepKeeps(first, s, r, if Rotatable(s.row, user) then Read(user, s.row.hash) else Failed, hash, initial);
      }
    case Generate(r, token) =>
      if r in s.rotations && s.rotations[r].Read? && token !in s.issued {
        GenerateKeeps(first, s, r, token, hash, initial);
      }
    case CompareAndSwap(r, expiredAt, fault) =>
      if r in s.rotations && s.rotations[r].Made? {
        StepKeeps(first, s, r, Failed, hash, initial);
        if !fault.Lost? && Matches(s.row, s.rotations[r].user, s.rotations[r].oldHash) {
          SwapKeeps(first, s, r, expiredAt, fault, hash, initial);
        }
      }
    case Revoke(user) => RevokeKeeps(first, s, user, hash, initial);
  }

  lemma RevokeKeeps(first: string, s: State, user: string, hash: string -> string, initial: set<string>)
    requires Inv(first, s, hash, initial)
    ensures Inv(first, Apply(s, Revoke(user), hash), hash, initial)
  {
    var t := Apply(s, Revoke(user), hash);
    WinnersKept(s, t);
    forall q | q in t.rotations && t.rotations[q].Made? ensures Pending(t, q, initial) {
      assert Pending(s, q, initial);
    }
    hide Winners, NeverAgain;
  }

  lemma {:induction false} RunKeeps(s: State, actions: seq<Action>, hash: string -> string)
    requires IsDigest(hash) && Initial(s, hash)
    ensures Inv(s.row.hash, Run(s, actions, hash), hash, s.issued)
  {
    if actions != [] {
      RunKeeps(s, actions[..|actions| - 1], hash);
      ApplyKeeps(s.row.hash, Run(s, actions[..|actions| - 1], hash), actions[|actions| - 1], hash, s.issued);
    }
  }

  // ----- what holds after every interleaving

  /** Every stored digest is replaced by at most one rotation. */
  lemma ReplacedOnce(s: State, actions: seq<Action>, hash: string -> string)
    requires IsDigest(hash) && Initial(s, hash)
    ensures var swaps := Run(s, actions, hash).swaps;
            forall i, j :: 0 <= i < j < |swaps| ==> swaps[i].oldHash != swaps[j].oldHash && swaps[i].rotation != swaps[j].rotation
  {
    RunKeeps(s, actions, hash);
    var n := Run(s, actions, hash);
    forall i, j | 0 <= i < j < |n.swaps| ensures n.swaps[i].oldHash != n.swaps[j].oldHash && n.swaps[i].rotation != n.swaps[j].rotation {
      assert DigestAt(s.row.hash, n.swaps, i + 1, hash) != DigestAt(s.row.hash, n.swaps, j + 1, hash);
    }
  }

  /** Only the rotation that made a swap returns the secret, and that is the stored one's. */
  lemma OnlyWinnersReturn(s: State, actions: seq<Action>, r: nat, hash: string -> string)
    requires IsDigest(hash) && Initial(s, hash)
    requires var n := Run(s, actions, hash); r in n.rotations && n.rotations[r].Returned?
    ensures var n := Run(s, actions, hash); HasSwap(n, r, n.rotations[r].token)
  {
    RunKeeps(s, actions, hash);
  }

  lemma AcceptedIsStored(hash: string -> string, row: Row, token: string, now: int)
    requires Accepts(hash, row, token, now)
    ensures hash(token) == row.hash
  {
  }

  lemma SameDigest(hash: string -> string, t: string, u: string)
    requires IsDigest(hash) && hash(t) == hash(u)
    ensures t == u
  {
  }

  /** At most one secret verifies at a time. */
  lemma OneSecretAtATime(hash: string -> string, row: Row, t: string, u: string, now: int, later: int)
    requires IsDigest(hash) && Accepts(hash, row, t, now) && Accepts(hash, row, u, later)
    ensures t == u
  {
    AcceptedIsStored(hash, row, t, now);
    AcceptedIsStored(hash, row, u, later);
    SameDigest(hash, t, u);
  }

  lemma LastStored(first: string, swaps: seq<Swap>, stored: string, hash: string -> string)
    requires Chained(first, swaps, stored, hash)
    ensures stored == if swaps == [] then first else hash(swaps[|swaps| - 1].token)
  {
  }

  /** The secret that verifies is that of the last swap, or one issued before any. If the
      database reported an error for that swap, nobody was given it. */
  lemma LastSecretVerifies(s: State, actions: seq<Action>, token: string, now: int, hash: string -> string)
    requires IsDigest(hash) && Initial(s, hash) && Accepts(hash, Run(s, actions, hash).row, token, now)
    ensures var n := Run(s, actions, hash);
            if n.swaps == [] then token in s.issued else token == n.swaps[|n.swaps| - 1].token
  {
    hide Run, Winners, NeverAgain, Fresh, Accepts, IsDigest, Chained;
    RunKeeps(s, actions, hash);
    var n := Run(s, actions, hash);
    AcceptedIsStored(hash, n.row, token, now);
    LastStored(s.row.hash, n.swaps, n.row.hash, hash);
    if n.swaps != [] {
      SameDigest(hash, token, n.swaps[|n.swaps| - 1].token);
    }
  }

  /** A secret that a later rotation replaced never verifies again. */
  lemma ReplacedSecretsFail(s: State, actions: seq<Action>, i: nat, now: int, hash: string -> string)
    requires IsDigest(hash) && Initial(s, hash) && i + 1 < |Run(s, actions, hash).swaps|
    ensures var n := Run(s, actions, hash); !Accepts(hash, n.row, n.swaps[i].token, now)
  {
    RunKeeps(s, actions, hash);
    var n := Run(s, actions, hash);
    assert DigestAt(s.row.hash, n.swaps, i + 1, hash) != DigestAt(s.row.hash, n.swaps, |n.swaps|, hash);
  }

  /** After revocation no rotation succeeds and no secret verifies, whatever happens next. */
  lemma {:induction false} RevokedForGood(s: State, actions: seq<Action>, hash: string -> string)
    requires s.row.revoked
    ensures var n := Run(s, actions, hash);
            && n.row == s.row && n.swaps == s.swaps
            && (forall token, now :: !Accepts(hash, n.row, token, now))
            && (forall r :: r in n.rotations && n.rotations[r].Returned? ==> r in s.rotations && s.rotations[r] == n.rotations[r])
  {
    if actions != [] {
      RevokedForGood(s, actions[..|actions| - 1], hash);
    }
  }

  lemma {:induction false} RunSplits(s: State, before: seq<Action>, later: seq<Action>, hash: string -> string)
    ensures Run(s, before + later, hash) == Run(Run(s, before, hash), later, hash)
  {
    if later == [] {
      assert before + later == before;
    } else {
      var n := |later| - 1;
      assert (before + later)[..|before| + n] == before + later[..n];
      RunSplits(s, before, later[..n], hash);
    }
  }

  /** Nothing but the owner's revocation revokes, and the owner stays the owner. */
  lemma {:induction false} OwnerStays(s: State, actions: seq<Action>, hash: string -> string)
    ensures Run(s, actions, hash).row.userId == s.row.userId
    ensures Run(s, actions, hash).row.revoked <==> s.row.revoked || exists i :: 0 <= i < |actions| && actions[i] == Revoke(s.row.userId)
  {
    if actions != [] {
      var n := |actions| - 1;
      OwnerStays(s, actions[..n], hash);
      if i :| 0 <= i < |actions| && actions[i] == Revoke(s.row.userId) {
        assert i < n ==> actions[..n][i] == actions[i];
      }
      if i :| 0 <= i < n && actions[..n][i] == Revoke(s.row.userId) {
        assert actions[i] == Revoke(s.row.userId);
      }
    }
  }

  /** The owner revokes, at any point of any run: from then on no secret is accepted, and no
      rotation returns one that had not returned it before. */
  lemma RevocationEndsAll(s: State, actions: seq<Action>, i: nat, hash: string -> string)
    requires i < |actions| && actions[i] == Revoke(s.row.userId)
    ensures var before, n := Run(s, actions[..i], hash), Run(s, actions, hash);
            && n.row.revoked && (forall token, now :: !Accepts(hash, n.row, token, now))
            && (forall r :: r in n.rotations && n.rotations[r].Returned? ==> r in before.rotations && before.rotations[r] == n.rotations[r])
  {
    var start := actions[..i + 1];
    assert start[..i] == actions[..i] && actions == start + actions[i + 1..];
    OwnerStays(s, actions[..i], hash);
    OwnerStays(s, start, hash);
    assert start[i] == Revoke(s.row.userId);
    RunSplits(s, start, actions[i + 1..], hash);
    RevokedForGood(Run(s, start, hash), actions[i + 1..], hash);
  }

  /** Without a revocation the secret of the last rotation that returned one is accepted
      exactly until it expires. */
  lemma ReturnedIsAccepted(s: State, actions: seq<Action>, r: nat, now: int, hash: string -> string)
    requires IsDigest(hash) && Initial(s, hash) && !s.row.revoked && Revoke(s.row.userId) !in actions
    requires var n := Run(s, actions, hash);
             n.swaps != [] && r == n.swaps[|n.swaps| - 1].rotation && r in n.rotations && n.rotations[r].Returned? && n.rotations[r].token != ""
    ensures var n := Run(s, actions, hash); Accepts(hash, n.row, n.rotations[r].token, now) <==> now <= n.row.expiredAt
  {
    hide Run, NeverAgain, Fresh, Chained, IsValidHash;
    RunKeeps(s, actions, hash);
    OwnerStays(s, actions, hash);
    var n := Run(s, actions, hash);
    LastStored(s.row.hash, n.swaps, n.row.hash, hash);
    assert HasSwap(n, r, n.rotations[r].token);
  }

  /** A rotation that nobody disturbs succeeds: it returns its secret, which is accepted until
      the new expiry, and its digest is stored with the first twelve of its hexadecimal digits. */
  lemma RotationSucceeds(s: State, r: nat, token: string, expiredAt: int, now: int, hash: string -> string)
    requires IsDigest(hash) && r !in s.rotations && token !in s.issued && token != ""
    requires !s.row.revoked && IsValidHash(s.row.hash)
    ensures var n := Run(s, [Start(r, s.row.userId), Generate(r, token), CompareAndSwap(r, expiredAt, NoFault)], hash);
            && n.rotations == s.rotations[r := Returned(token)] && n.issued == s.issued + {token}
            && n.row == Row(s.row.userId, hash(token), hash(token)[7..19], expiredAt, false)
            && (Accepts(hash, n.row, token, now) <==> now <= expiredAt)
  {
    var actions := [Start(r, s.row.userId), Generate(r, token), CompareAndSwap(r, expiredAt, NoFault)];
    assert actions[..2][..1] == [actions[0]] && actions[..1][..0] == [];
    assert Run(s, actions[..1], hash) == Apply(s, actions[0], hash);
    assert Run(s, actions[..2], hash) == Apply(Apply(s, actions[0], hash), actions[1], hash);
    assert Run(s, actions, hash) == Apply(Run(s, actions[..2], hash), actions[2], hash);
  }

  /** A digest is valid exactly if it is the prefix and 64 lower-case hexadecimal digits. */
  lemma ValidHashExactly(digest: string)
    ensures IsValidHash(digest) <==>
      exists digits :: digest == "sha256:" + digits && |digits| == 64 && forall i :: 0 <= i < 64 ==> digits[i] in "0123456789abcdef"
  {
    HexDigitsExactly();
    if IsValidHash(digest) {
      var digits := digest[7..];
      assert digest == "sha256:" + digits;
      assert forall i :: 0 <= i < 64 ==> digits[i] == digest[7 + i];
    }
    if digits :| digest == "sha256:" + digits && |digits| == 64 && forall i :: 0 <= i < 64 ==> digits[i] in "0123456789abcdef" {
      assert digest[..7] == "sha256:";
      forall i | 7 <= i < |digest| ensures LowerHex(digest[i]) {
        assert digest[i] == digits[i - 7];
      }
    }
  }

  lemma HexDigitsExactly()
    ensures forall c :: LowerHex(c) <==> c in "0123456789abcdef"
  {
    forall c ensures LowerHex(c) <==> c in "0123456789abcdef" {
      if '0' <= c <= '9' { assert "0123456789abcdef"[c as int - '0' as int] == c; }
      if 'a' <= c <= 'f' { assert "0123456789abcdef"[10 + (c as int - 'a' as int)] == c; }
    }
  }

  // ----- the code

  datatype RotateError = NotFound | RevokedError | InvalidDigest | BadPeriod | GenerationFailed | DbError | Conflict

  datatype Outcome = Rotated(token: string) | Error(error: RotateError)

  class Store {
    var row: Row

    constructor (row: Row)
      ensures this.row == row
    {
      this.row := row;
    }

    /** Whatever other requests do to the row in the meantime. */
    method Others(meanwhile: Row)
      modifies this
      ensures row == meanwhile
    {
      row := meanwhile;
    }

    method CompareAndSwapUserAuthTokenDigest(user: string, oldHash: string, newHash: string, fingerprint: string, expiredAt: int)
        returns (swapped: bool)
      modifies this
      ensures swapped <==> old(row).userId == user && !old(row).revoked && old(row).hash == oldHash
      ensures row == if swapped then old(row).(hash := newHash, fingerprint := fingerprint, expiredAt := expiredAt) else old(row)
    {
      swapped := row.userId == user && row.revoked == false && row.hash == oldHash;
      if swapped {
        row := row.(hash := newHash, fingerprint := fingerprint, expiredAt := expiredAt);
      }
    }

    /** Reads, lets others go on, swaps. A secret is returned exactly when the row still
        holds the digest that was read, not revoked, and the database reports no error; the
        row is changed exactly when the swap was stored. */
    method RotateUserAuthToken(user: string, period: int, made: Option<string>, expiredAt: int, meanwhile: Row, fault: Fault,
                               hash: string -> string) returns (outcome: Outcome)
      modifies this
      ensures outcome.Rotated? <==>
        && old(row).userId == user && !old(row).revoked && IsValidHash(old(row).hash) && period > 0 && made.Some?
        && meanwhile.userId == user && !meanwhile.revoked && meanwhile.hash == old(row).hash && fault.NoFault?
      ensures outcome.Rotated? ==> Some(outcome.token) == made
      ensures outcome.Rotated? && IsDigest(hash) ==>
        row == meanwhile.(hash := hash(outcome.token), fingerprint := hash(outcome.token)[7..19], expiredAt := expiredAt)
      ensures row == if !Rotatable(old(row), user) || period <= 0 || made == None then old(row)
                     else if !fault.Lost? && Matches(meanwhile, user, old(row).hash) then Swapped(meanwhile, hash(made.value), expiredAt)
                     else meanwhile
      ensures outcome == Error(NotFound) <==> old(row).userId != user
      ensures outcome == Error(RevokedError) <==> old(row).userId == user && old(row).revoked
      ensures outcome == Error(InvalidDigest) <==> old(row).userId == user && !old(row).revoked && !IsValidHash(old(row).hash)
      ensures outcome == Error(BadPeriod) <==> Rotatable(old(row), user) && period <= 0
      ensures outcome == Error(GenerationFailed) <==> Rotatable(old(row), user) && period > 0 && made == None
      ensures outcome == Error(DbError) <==> Rotatable(old(row), user) && period > 0 && made.Some? && !fault.NoFault?
      ensures outcome == Error(Conflict) <==>
        Rotatable(old(row), user) && period > 0 && made.Some? && fault.NoFault? && !Matches(meanwhile, user, old(row).hash)
    {
      if row.userId != user {
        return Error(NotFound);
      }
      if row.revoked {
        return Error(RevokedError);
      }
      if !IsValidHash(row.hash) {
        return Error(InvalidDigest);
      }
      if period <= 0 {
        return Error(BadPeriod);
      }
      if made == None {
        return Error(GenerationFailed);
      }
      var token := made.value;
      var oldHash := row.hash;
      var tokenHash := hash(token);
      var fingerprint := Fingerprint(tokenHash);
      Others(meanwhile);
      var swapped := false;
      if !fault.Lost? {
        swapped := CompareAndSwapUserAuthTokenDigest(user, oldHash, tokenHash, fingerprint, expiredAt);
      }
      if !fault.NoFault? {
        return Error(DbError);
      }
      outcome := if swapped then Rotated(token) else Error(Conflict);
    }

    method RevokeToken(user: string)
      modifies this
      ensures row.revoked == (old(row).revoked || old(row).userId == user)
      ensures row == old(row).(revoked := row.revoked)
    {
      if row.userId == user && row.revoked == false {
        row := row.(revoked := true);
      }
    }

    method CheckToken(token: string, now: int, hash: string -> string) returns (ok: bool)
      ensures ok <==> token != "" && now <= row.expiredAt && !row.revoked && IsValidHash(row.hash) && hash(token) == row.hash
      ensures ok <==> Accepts(hash, row, token, now)
    {
      if token == "" {
        return false;
      }
      if row.expiredAt < now {
        return false;
      }
      if row.revoked {
        return false;
      }
      ok := Verifies(hash, token, row.hash);
    }
  }
}
