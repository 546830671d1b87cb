/**
 Stored passwords: the envelope cipher (internal/crypto/cipher.go:50, 87-144), reading them
 back, and the startup pass that upgrades old plaintext rows in place
 (internal/controlplane/projects/service.go:281-355).  AES-256-GCM is a pair of functions of
 which only open-after-seal is assumed.
 */
module Reencrypt {
  import opened Base64
  import opened Wrappers

  type Id = int

  const PREFIX := "v1:"
  const NONCE_SIZE: nat := 12

  type Nonce = n: seq<Byte> | |n| == NONCE_SIZE witness [0, 0, 0, 0, 0, 0, 0, 0, 0, 0, 0, 0]

  datatype Gcm = Gcm(seal: (Nonce, string) -> seq<Byte>, open_: (Nonce, seq<Byte>) -> Result<string>)

  /** Opening what was sealed gives it back; a sealed value is never empty (it has a tag). */
  ghost predicate Lawful(g: Gcm) {
    forall nonce, p :: |g.seal(nonce, p)| > 0 && g.open_(nonce, g.seal(nonce, p)) == Ok(p)
  }

  datatype Cipher = AesGcm(gcm: Gcm) | Noop
  {
    predicate Enabled() { AesGcm? }

    function Encrypt(nonce: Nonce, plaintext: string): string {
      if Noop? then plaintext
      else if plaintext == "" then ""
      else PREFIX + EncodePadded(nonce + gcm.seal(nonce, plaintext))
    }

    function Decrypt(stored: string): Result<string> {
      if Noop? then if IsEnvelope(stored) then Err else Ok(stored)
      else if stored == "" then Ok("")
      else if !IsEnvelope(stored) then Ok(stored)
      else
        match DecodePadded(stored[|PREFIX|..])
        case Err => Err
        case Ok(raw) => if |raw| < NONCE_SIZE + 1 then Err else gcm.open_(raw[..NONCE_SIZE], raw[NONCE_SIZE..])
    }
  }

  predicate IsEnvelope(s: string) { PREFIX <= s }

  ghost predicate Works(c: Cipher) { c.AesGcm? && Lawful(c.gcm) }

  /** With a key every plaintext survives storage, and what is stored is an envelope except for
      the empty value. */
  lemma EncryptRoundTrip(c: Cipher, nonce: Nonce, plaintext: string)
    requires Works(c)
    ensures c.Decrypt(c.Encrypt(nonce, plaintext)) == Ok(plaintext)
    ensures IsEnvelope(c.Encrypt(nonce, plaintext)) <==> plaintext != ""
  {
    if plaintext != "" {
      hide EncodePadded, DecodePadded;
      var raw := nonce + c.gcm.seal(nonce, plaintext);
      var e := EncodePadded(raw);
      PaddedRoundTrip(raw);
      assert (PREFIX + e)[|PREFIX|..] == e;
      assert raw[..NONCE_SIZE] == nonce && raw[NONCE_SIZE..] == c.gcm.seal(nonce, plaintext);
    }
  }

  /** Without a key storage is transparent exactly for values that do not look like envelopes. */
  lemma NoopRoundTripIff(nonce: Nonce, plaintext: string)
    ensures Noop.Decrypt(Noop.Encrypt(nonce, plaintext)) == if IsEnvelope(plaintext) then Err else Ok(plaintext)
  {
  }

  /** An envelope is told by its first three characters. */
  lemma EnvelopePrefix(s: string)
    ensures IsEnvelope(s) <==> |s| >= 3 && s[0] == 'v' && s[1] == '1' && s[2] == ':'
  {
  }

  /** What a keyed cipher reads: plaintext from before the key as it stands; an envelope only if it is
      base64 of a nonce and something that opens under it, and never anything else. */
  lemma DecryptIff(c: Cipher, stored: string, plaintext: string)
    requires c.AesGcm?
    ensures !IsEnvelope(stored) ==> c.Decrypt(stored) == Ok(stored)
    ensures IsEnvelope(stored) ==>
              (c.Decrypt(stored) == Ok(plaintext) <==>
                 exists nonce: Nonce, sealed: seq<Byte> ::
                   && |sealed| > 0 && DecodePadded(stored[3..]) == Ok(nonce + sealed)
                   && c.gcm.open_(nonce, sealed) == Ok(plaintext))
  {
    hide DecodePadded;
    if IsEnvelope(stored) {
      var text := DecodePadded(stored[3..]);
      if text.Ok? && |text.value| > NONCE_SIZE {
        var nonce: Nonce, sealed := text.value[..NONCE_SIZE], text.value[NONCE_SIZE..];
        assert nonce + sealed == text.value;
      }
      forall nonce: Nonce, sealed: seq<Byte> | |sealed| > 0 && text == Ok(nonce + sealed)
        ensures text.value[..NONCE_SIZE] == nonce && text.value[NONCE_SIZE..] == sealed
      {
      }
    }
  }

  // --- The table ------------------------------------------------------------------------------

  datatype Project = Project(role: string, schema: string, password: string, deleted: bool)

  type Projects = map<Id, Project>

  function GetCredentials(c: Cipher, ps: Projects, id: Id): Result<(string, string, string)> {
    if id !in ps || ps[id].deleted then Err
    else match c.Decrypt(ps[id].password)
      case Err => Err
      case Ok(password) => Ok((ps[id].role, password, ps[id].schema))
  }

  /** Nobody gets credentials for a project that is missing or deleted; a live one's are its role, the
      password that was stored, decrypted, and its schema, in that order. */
  lemma CredentialsAre(c: Cipher, ps: Projects, id: Id, nonce: Nonce, plaintext: string)
    requires Works(c)
    ensures id !in ps ==> GetCredentials(c, ps, id) == Err
    ensures id in ps && ps[id].deleted ==> GetCredentials(c, ps, id) == Err
    ensures id in ps && !ps[id].deleted && ps[id].password == c.Encrypt(nonce, plaintext) ==>
              GetCredentials(c, ps, id) == Ok((ps[id].role, plaintext, ps[id].schema))
    ensures id in ps && !ps[id].deleted && ps[id].password == plaintext && !IsEnvelope(plaintext) ==>
              GetCredentials(c, ps, id) == Ok((ps[id].role, plaintext, ps[id].schema))
  {
    EncryptRoundTrip(c, nonce, plaintext);
    hide Lawful;
  }

  /** UPDATE ... WHERE id = .. AND pg_password = listed */
  function CompareAndSet(ps: Projects, id: Id, listed: string, sealed: string): Projects {
    if id in ps && ps[id].password == listed then ps[id := ps[id].(password := sealed)] else ps
  }

  predicate Pending(p: Project) { !p.deleted && !IsEnvelope(p.password) }

  function Upgraded(c: Cipher, ps: Projects, nonce: Id -> Nonce): Projects {
    map id | id in ps ::
      if Pending(ps[id]) then ps[id].(password := c.Encrypt(nonce(id), ps[id].password)) else ps[id]
  }

  /** Of the pending rows just those in `done` have been upgraded, and no other row has changed. */
  predicate UpgradedIn(c: Cipher, ps: Projects, nonce: Id -> Nonce, done: set<Id>, after: Projects) {
    && done <= PendingIds(ps) && after.Keys == ps.Keys
    && forall id :: id in ps ==> after[id] == if id in done then Upgraded(c, ps, nonce)[id] else ps[id]
  }

  lemma Halfway(c: Cipher, ps: Projects, nonce: Id -> Nonce, done: set<Id>, after: Projects)
    requires done <= PendingIds(ps) && after.Keys == ps.Keys
    requires forall id :: id in ps ==> after[id] == if id in done then Upgraded(c, ps, nonce)[id] else ps[id]
    ensures UpgradedIn(c, ps, nonce, done, after)
  {
  }

  function PendingIds(ps: Projects): set<Id> { set id | id in ps && Pending(ps[id]) }

  class Store {
    const cipher: Cipher
    var projects: Projects

    constructor (cipher: Cipher, projects: Projects)
      ensures this.cipher == cipher && this.projects == projects
    {
      this.cipher, this.projects := cipher, projects;
    }

    /** Lists the rows, then updates them one by one; the update after `budget` others fails. */
    method ReencryptAll(nonce: Id -> Nonce, budget: nat) returns (n: nat, ok: bool)
      modifies this
      ensures !cipher.Enabled() ==> n == 0 && ok && projects == old(projects)
      ensures cipher.Enabled() && ok ==>
                projects == Upgraded(cipher, old(projects), nonce) && n == |PendingIds(old(projects))|
      ensures cipher.Enabled() ==> ok == (|PendingIds(old(projects))| <= budget)
      ensures projects.Keys == old(projects).Keys
      ensures cipher.Enabled() ==>
                exists done :: |done| == n && UpgradedIn(cipher, old(projects), nonce, done, projects)
    {
      n, ok := 0, true;
      if !cipher.Enabled() { return; }
      hide Pending, UpgradedIn;
      ghost var before := projects;
      ghost var after := Upgraded(cipher, before, nonce);
      var pending := PendingIds(projects);
      while pending != {}
        invariant projects.Keys == before.Keys
        invariant pending <= PendingIds(before) && n + |pending| == |PendingIds(before)| && n <= budget
        invariant forall id :: id in before ==>
                    projects[id] == if id in pending || id !in PendingIds(before) then before[id] else after[id]
        decreases |pending|
      {
        if n == budget {
          Halfway(cipher, before, nonce, PendingIds(before) - pending, projects);
          return n, false;
        }
        ghost var member := SomeMember(pending);
        var id :| id in pending;
        var listed := projects[id].password;
        projects := CompareAndSet(projects, id, listed, cipher.Encrypt(nonce(id), listed));
        pending := pending - {id};
        n := n + 1;
      }
      assert forall id :: id in before ==> projects[id] == after[id];
      Halfway(cipher, before, nonce, PendingIds(before), projects);
    }
  }

  /** What an upgrade is for: every project's credentials read the same, every live non-empty
      value is an envelope afterwards, and deleted rows and envelopes are as they were. */
  lemma UpgradeKeepsCredentials(c: Cipher, ps: Projects, nonce: Id -> Nonce, id: Id)
    requires Works(c)
    ensures var after := Upgraded(c, ps, nonce);
            && GetCredentials(c, after, id) == GetCredentials(c, ps, id)
            && (id in ps && !ps[id].deleted && ps[id].password != "" ==> IsEnvelope(after[id].password))
            && (id in ps && (ps[id].deleted || IsEnvelope(ps[id].password) || ps[id].password == "") ==>
                  after[id] == ps[id])
  {
    if id in ps && Pending(ps[id]) {
      EncryptRoundTrip(c, nonce(id), ps[id].password);
      hide Lawful;
    }
  }

  /** A second run changes no row; what it counts are the live empty values, every time. */
  lemma SecondRunChangesNothing(c: Cipher, ps: Projects, nonce: Id -> Nonce, again: Id -> Nonce)
    requires Works(c)
    ensures var once := Upgraded(c, ps, nonce);
            && Upgraded(c, once, again) == once
            && PendingIds(once) == set id | id in ps && !ps[id].deleted && ps[id].password == ""
  {
    var once := Upgraded(c, ps, nonce);
    forall id | id in ps
      ensures Upgraded(c, once, again)[id] == once[id]
      ensures Pending(once[id]) <==> !ps[id].deleted && ps[id].password == ""
    {
      UpgradeKeepsCredentials(c, ps, nonce, id);
      EncryptRoundTrip(c, nonce(id), ps[id].password);
    }
    hide Upgraded, IsEnvelope, Works;
    assert once.Keys == ps.Keys by { SameIds(c, ps, nonce); }
    assert Upgraded(c, once, again).Keys == once.Keys by { SameIds(c, once, again); }
  }

  lemma SameIds(c: Cipher, ps: Projects, nonce: Id -> Nonce)
    ensures Upgraded(c, ps, nonce).Keys == ps.Keys
  {
  }

  /** So the count is the number of rows that change exactly when no live value is empty. */
  lemma CountIsChangesIff(c: Cipher, ps: Projects, nonce: Id -> Nonce)
    requires Works(c)
    ensures var changed := set id | id in ps && Upgraded(c, ps, nonce)[id] != ps[id];
            changed <= PendingIds(ps) &&
            (|changed| == |PendingIds(ps)| <==> forall id :: id in ps && !ps[id].deleted ==> ps[id].password != "")
  {
    var changed := set id | id in ps && Upgraded(c, ps, nonce)[id] != ps[id];
    forall id | id in ps ensures id in changed <==> Pending(ps[id]) && ps[id].password != "" {
      EncryptRoundTrip(c, nonce(id), ps[id].password);
    }
    hide Upgraded, Works;
    assert "" < PREFIX;
    if changed == PendingIds(ps) {
      assert forall id :: id in ps && !ps[id].deleted && ps[id].password == "" ==> id in PendingIds(ps);
    } else {
      assert changed < PendingIds(ps);
      Smaller(changed, PendingIds(ps));
      SomeExtra(changed, PendingIds(ps));
      var id :| id in PendingIds(ps) && id !in changed;
      assert ps[id].password == "";
    }
  }

  lemma SomeExtra(a: set<Id>, b: set<Id>)
    ensures b <= a || exists id :: id in b && id !in a
  {
    if forall id :: id in b ==> id in a { assert b <= a; }
  }

  lemma Smaller(a: set<Id>, b: set<Id>)
    requires a < b
    ensures |a| < |b|
  {
    assert b == a + (b - a);
  }

  // --- Interleaved with other writers ----------------------------------------------------------

  /** An update of the pass, for a value it listed earlier, or any write by somebody else: a new
      row, a new password, a soft delete. */
  datatype Action = Update(id: Id, listed: string, nonce: Nonce) | Write(id: Id, row: Project)

  function Do(c: Cipher, ps: Projects, a: Action): Projects {
    match a
    case Update(id, listed, nonce) => CompareAndSet(ps, id, listed, c.Encrypt(nonce, listed))
    case Write(id, row) => ps[id := row]
  }

  function Run(c: Cipher, ps: Projects, actions: seq<Action>): Projects {
    if actions == [] then ps
    else Do(c, Run(c, ps, actions[..|actions| - 1]), actions[|actions| - 1])
  }

  function WithoutUpdates(actions: seq<Action>): seq<Action> {
    if actions == [] then []
    else
      var last := actions[|actions| - 1];
      WithoutUpdates(actions[..|actions| - 1]) + if last.Write? then [last] else []
  }

  /** Rows alike but for how the password is stored. */
  predicate Alike(c: Cipher, p: Project, q: Project) {
    p.(password := "") == q.(password := "") && c.Decrypt(p.password) == c.Decrypt(q.password)
  }

  ghost predicate AllAlike(c: Cipher, ps: Projects, qs: Projects) {
    ps.Keys == qs.Keys && forall id :: id in ps ==> Alike(c, ps[id], qs[id])
  }

  /** However the updates of any number of passes interleave with other writes, nobody can tell:
      every row reads as if the passes had not run.  In particular a value written since the
      listing is never overwritten by the older one. */
  lemma {:induction false} PassIsInvisible(c: Cipher, ps: Projects, actions: seq<Action>)
    requires Works(c)
    requires forall i :: 0 <= i < |actions| && actions[i].Update? ==> !IsEnvelope(actions[i].listed)
    ensures AllAlike(c, Run(c, ps, actions), Run(c, ps, WithoutUpdates(actions)))
    decreases |actions|
  {
    if actions != [] {
      var rest, last := actions[..|actions| - 1], actions[|actions| - 1];
      PassIsInvisible(c, ps, rest);
      hide Works, AllAlike, WithoutUpdates;
      LastWrite(actions);
      if last.Write? {
        var w := WithoutUpdates(rest);
        assert (w + [last])[..|w + [last]| - 1] == w;
        WriteKeepsAlike(c, Run(c, ps, rest), Run(c, ps, w), last.id, last.row);
      } else {
        UpdateKeepsAlike(c, Run(c, ps, rest), Run(c, ps, WithoutUpdates(rest)), last);
      }
    }
  }

  lemma LastWrite(actions: seq<Action>)
    requires actions != []
    ensures var rest, last := actions[..|actions| - 1], actions[|actions| - 1];
            WithoutUpdates(actions) == if last.Write? then WithoutUpdates(rest) + [last] else WithoutUpdates(rest)
  {
  }

  lemma WriteKeepsAlike(c: Cipher, ps: Projects, qs: Projects, id: Id, row: Project)
    requires AllAlike(c, ps, qs)
    ensures AllAlike(c, ps[id := row], qs[id := row])
  {
  }

  lemma UpdateKeepsAlike(c: Cipher, ps: Projects, qs: Projects, u: Action)
    requires Works(c) && u.Update? && !IsEnvelope(u.listed) && AllAlike(c, ps, qs)
    ensures AllAlike(c, Do(c, ps, u), qs)
  {
    EncryptRoundTrip(c, u.nonce, u.listed);
  }

  /** Alike tables hand out the same credentials. */
  lemma AlikeReadAlike(c: Cipher, ps: Projects, qs: Projects, id: Id)
    requires AllAlike(c, ps, qs)
    ensures GetCredentials(c, ps, id) == GetCredentials(c, qs, id)
  {
  }

  /** The update does not look at deleted_at: a row soft-deleted after the listing is rewritten
      all the same, exactly when its password is still the listed, non-empty one. */
  lemma DeletedMeanwhileIsRewrittenIff(c: Cipher, ps: Projects, u: Action)
    requires Works(c) && u.Update? && !IsEnvelope(u.listed)
    requires u.id in ps && ps[u.id].deleted
    ensures Do(c, ps, u) != ps <==> ps[u.id].password == u.listed != ""
  {
    EncryptRoundTrip(c, u.nonce, u.listed);
    hide Works;
    var row := ps[u.id].(password := c.Encrypt(u.nonce, u.listed));
    if row == ps[u.id] { assert ps[u.id := row] == ps; }
  }
}
