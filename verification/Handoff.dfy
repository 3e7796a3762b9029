/**
 The authority handoff validator: enrollment proposals, reciprocal evidence proposals and the
 configured peers that rest on them.

 `fieldsOk` stands for the closed shape and the per-field format tests of an object, each of
 which adds its own error; the fields that tie objects to each other are kept.
 */
module Handoff {
  import opened Wrappers

  /** A JSON scalar: a text, or something else together with its rendering. */
  datatype Value = Str(text: string) | Other(rendering: string)

  function Rendered(v: Value): string {
    match v
    case Str(s) => s
    case Other(r) => r
  }

  datatype Enrollment =
    | NoEnrollment
    | Enrollment(fieldsOk: bool, proposalId: Option<string>, peer: Option<string>, keyId: Value)

  /** `bound` holds the fields two reciprocal proposals must share besides their window. */
  datatype Evidence =
    | NoEvidence
    | Evidence(
        fieldsOk: bool,
        proposalId: Option<string>,
        signer: Value,
        signerKey: Value,
        counterparty: Value,
        role: Value,
        issuedAt: Option<int>,
        expiresAt: Option<int>,
        bound: seq<Value>)

  datatype Conformance = Eligible | Advisory | Unrecognized

  datatype Peer =
    | NoPeer
    | Peer(fieldsOk: bool, id: string, enrollmentId: Option<string>, evidenceIds: seq<Option<string>>,
           status: Conformance)

  /** A list is `None` when it is no list; `rootOk` covers the closed root shape and boundaries. */
  datatype Document = Document(
    rootOk: bool,
    enrollments: Option<seq<Enrollment>>,
    evidence: Option<seq<Evidence>>,
    peers: Option<seq<Peer>>,
    forbiddenFields: nat)

  datatype Error =
    | RootInvalid
    | EnrollmentsMissing
    | EnrollmentInvalid(index: nat)
    | EnrollmentIdRepeated(index: nat)
    | EnrolledPeerRepeated(index: nat)
    | EvidenceMissing
    | EvidenceInvalid(index: nat)
    | EvidenceIdRepeated(index: nat)
    | SignerNotEnrolled(index: nat)
    | WindowInvalid(index: nat)
    | NotReciprocal(index: nat)
    | BoundFieldsDiffer(index: nat)
    | RolesNotOpposed(index: nat)
    | PeersMissing
    | PeersUnsorted
    | PeerInvalid(index: nat)
    | StatusExceedsEvidence(index: nat)
    | ForbiddenField

  const OWNER := Str("group_owner")
  const CLIENT := Str("client")
  const MAX_WINDOW_MS := 60_000

  // ---------------------------------------------------------------- what is required, object by object

  ghost predicate EnrollmentOk(es: seq<Enrollment>, i: nat)
    requires i < |es|
  {
    && es[i].Enrollment? && es[i].fieldsOk && es[i].proposalId.Some?
    && (forall j :: 0 <= j < i ==> es[j].Enrollment? ==> es[j].proposalId != es[i].proposalId)
    && (es[i].peer.Some? ==> forall j :: 0 <= j < i ==> es[j].Enrollment? ==> es[j].peer != es[i].peer)
  }

  ghost predicate SignerEnrolled(es: seq<Enrollment>, e: Evidence)
    requires e.Evidence?
  {
    exists x :: x in es && x.Enrollment? && x.peer == Some(Rendered(e.signer)) && x.keyId == e.signerKey
  }

  predicate WindowOk(e: Evidence)
    requires e.Evidence?
  {
    && e.issuedAt.Some? && e.expiresAt.Some?
    && e.issuedAt.value < e.expiresAt.value <= e.issuedAt.value + MAX_WINDOW_MS
  }

  ghost predicate EvidenceOk(es: seq<Enrollment>, vs: seq<Evidence>, i: nat)
    requires i < |vs|
  {
    && vs[i].Evidence? && vs[i].fieldsOk && vs[i].proposalId.Some?
    && (forall j :: 0 <= j < i ==> vs[j].Evidence? ==> vs[j].proposalId != vs[i].proposalId)
    && SignerEnrolled(es, vs[i]) && WindowOk(vs[i])
  }

  predicate Reciprocal(vs: seq<Evidence>, i: nat, j: nat)
    requires i < |vs| && j < |vs|
  {
    && vs[i].Evidence? && vs[j].Evidence?
    && vs[j].signer == vs[i].counterparty && vs[j].counterparty == vs[i].signer
  }

  predicate SameBound(a: Evidence, b: Evidence)
    requires a.Evidence? && b.Evidence?
  {
    a.bound == b.bound && a.issuedAt == b.issuedAt && a.expiresAt == b.expiresAt
  }

  predicate OpposedRoles(a: Evidence, b: Evidence)
    requires a.Evidence? && b.Evidence?
  {
    (a.role == OWNER && b.role == CLIENT) || (a.role == CLIENT && b.role == OWNER)
  }

  /** Exactly one proposal answers this one, with the same bound fields and the other role. */
  ghost predicate Answered(vs: seq<Evidence>, i: nat)
    requires i < |vs|
  {
    exists j :: 0 <= j < |vs| && Reciprocal(vs, i, j) && SameBound(vs[i], vs[j]) && OpposedRoles(vs[i], vs[j])
      && forall k :: 0 <= k < |vs| && Reciprocal(vs, i, k) ==> k == j
  }

  predicate IndependentlyEnrolled(es: seq<Enrollment>, p: Peer)
    requires p.Peer?
  {
    p.enrollmentId.Some? &&
    exists i :: 0 <= i < |es| && es[i].Enrollment? && es[i].proposalId == p.enrollmentId && es[i].peer == Some(p.id)
  }

  /** A listed proposal is signed by the peer, and its counterparty answered some proposal of the peer. */
  predicate IndependentlyAuthenticated(vs: seq<Evidence>, p: Peer)
    requires p.Peer?
  {
    exists i :: 0 <= i < |vs| && vs[i].Evidence? && vs[i].proposalId.Some? && vs[i].proposalId in p.evidenceIds
      && vs[i].signer == Str(p.id) && exists j :: 0 <= j < |vs| && Reciprocal(vs, i, j)
  }

  predicate TextBefore(a: string, b: string) {
    if b == "" then false
    else if a == "" then true
    else a[0] < b[0] || (a[0] == b[0] && TextBefore(a[1..], b[1..]))
  }

  predicate PeersSorted(ps: seq<Peer>) {
    forall i, j :: 0 <= i < j < |ps| && ps[i].Peer? && ps[j].Peer? ==> TextBefore(ps[i].id, ps[j].id)
  }

  lemma {:induction false} TextBeforeTransitive(a: string, b: string, c: string)
    requires TextBefore(a, b) && TextBefore(b, c)
    ensures TextBefore(a, c)
  {
    if a != "" && a[0] == b[0] && b[0] == c[0] {
      TextBeforeTransitive(a[1..], b[1..], c[1..]);
    }
  }

  /** Each id comes after the one before it. */
  method CheckSorted(ps: seq<Peer>) returns (ok: bool)
    ensures ok <==> PeersSorted(ps)
  {
    var last: Option<string> := None;
    for i := 0 to |ps|
      invariant PeersSorted(ps[..i])
      invariant last.None? <==> forall j :: 0 <= j < i ==> ps[j].NoPeer?
      invariant last.Some? ==> exists j :: 0 <= j < i && ps[j].Peer? && ps[j].id == last.value
      invariant last.Some? ==> forall j :: 0 <= j < i && ps[j].Peer? ==>
        ps[j].id == last.value || TextBefore(ps[j].id, last.value)
    {
      if ps[i].Peer? {
        if last.Some? && !TextBefore(last.value, ps[i].id) {
          return false;
        }
        forall j | 0 <= j < i && ps[j].Peer? ensures TextBefore(ps[j].id, ps[i].id) {
          if ps[j].id != last.value {
            TextBeforeTransitive(ps[j].id, last.value, ps[i].id);
          }
        }
        last := Some(ps[i].id);
      }
    }
    assert ps[..|ps|] == ps;
    return true;
  }

  predicate PeerOk(es: seq<Enrollment>, vs: seq<Evidence>, p: Peer) {
    && p.Peer? && p.fieldsOk
    && p.status == if IndependentlyEnrolled(es, p) && IndependentlyAuthenticated(vs, p) then Eligible else Advisory
  }

  ghost predicate AllEnrollmentsOk(es: seq<Enrollment>) {
    forall i :: 0 <= i < |es| ==> EnrollmentOk(es, i)
  }

  ghost predicate AllEvidenceOk(es: seq<Enrollment>, vs: seq<Evidence>) {
    forall i :: 0 <= i < |vs| ==> EvidenceOk(es, vs, i)
  }

  /** Every proposal that is an object is answered. */
  ghost predicate AllAnswered(vs: seq<Evidence>) {
    forall i {:trigger Answered(vs, i)} :: 0 <= i < |vs| && vs[i].Evidence? ==> Answered(vs, i)
  }

  /** The handoff is accepted. */
  ghost predicate Accepted(d: Document) {
    && d.rootOk && d.forbiddenFields == 0
    && d.enrollments.Some? && d.enrollments.value != []
    && AllEnrollmentsOk(d.enrollments.value)
    && d.evidence.Some? && |d.evidence.value| >= 2
    && AllEvidenceOk(d.enrollments.value, d.evidence.value) && AllAnswered(d.evidence.value)
    && d.peers.Some? && |d.peers.value| >= 3 && PeersSorted(d.peers.value)
    && (forall p :: p in d.peers.value ==> PeerOk(d.enrollments.value, d.evidence.value, p))
  }

  // ---------------------------------------------------------------- the validator

  type EnrollmentIndex = map<string, Enrollment>

  ghost predicate IndexesIds(byId: EnrollmentIndex, es: seq<Enrollment>) {
    && (forall id :: id in byId ==> byId[id] in es && byId[id].Enrollment? && byId[id].proposalId == Some(id))
    && (forall e :: e in es && e.Enrollment? && e.proposalId.Some? ==> e.proposalId.value in byId)
  }

  ghost predicate IndexesPeers(byPeer: EnrollmentIndex, es: seq<Enrollment>) {
    && (forall p :: p in byPeer ==> byPeer[p] in es && byPeer[p].Enrollment? && byPeer[p].peer == Some(p))
    && (forall e :: e in es && e.Enrollment? && e.peer.Some? ==> e.peer.value in byPeer)
  }

  lemma EnrollmentRepeats(es: seq<Enrollment>, i: nat, byId: EnrollmentIndex, byPeer: EnrollmentIndex)
    requires i < |es| && es[i].Enrollment?
    requires IndexesIds(byId, es[..i]) && IndexesPeers(byPeer, es[..i])
    ensures EnrollmentOk(es, i) <==>
      && es[i].fieldsOk && es[i].proposalId.Some? && es[i].proposalId.value !in byId
      && (es[i].peer.Some? ==> es[i].peer.value !in byPeer)
  {
    assert forall j :: 0 <= j < i ==> es[j] in es[..i];
    if es[i].proposalId.Some? && es[i].proposalId.value in byId {
      var j :| 0 <= j < i && es[j] == byId[es[i].proposalId.value];
    }
    if es[i].peer.Some? && es[i].peer.value in byPeer {
      var j :| 0 <= j < i && es[j] == byPeer[es[i].peer.value];
    }
  }

  method CheckEnrollments(es: seq<Enrollment>)
    returns (errors: seq<Error>, byId: EnrollmentIndex, byPeer: EnrollmentIndex)
    ensures errors == [] <==> AllEnrollmentsOk(es)
    ensures IndexesIds(byId, es) && IndexesPeers(byPeer, es)
  {
    errors, byId, byPeer := [], map[], map[];
    assert es[..0] == [];
    for i := 0 to |es|
      invariant errors == [] <==> forall j :: 0 <= j < i ==> EnrollmentOk(es, j)
      invariant IndexesIds(byId, es[..i]) && IndexesPeers(byPeer, es[..i])
    {
      var e := es[i];
      assert es[..i + 1] == es[..i] + [e];
      if e.NoEnrollment? {
        assert !EnrollmentOk(es, i);
        errors := errors + [EnrollmentInvalid(i)];
        continue;
      }
      EnrollmentRepeats(es, i, byId, byPeer);
      if !e.fieldsOk {
        errors := errors + [EnrollmentInvalid(i)];
      }
      if e.proposalId.None? || e.proposalId.value in byId {
        errors := errors + [EnrollmentIdRepeated(i)];
      } else {
        byId := byId[e.proposalId.value := e];
      }
      if e.peer.Some? {
        if e.peer.value in byPeer {
          errors := errors + [EnrolledPeerRepeated(i)];
        }
        byPeer := byPeer[e.peer.value := e];
      }
    }
    assert es[..|es|] == es;
  }

  type EvidenceIndex = map<string, Evidence>

  ghost predicate IndexesEvidence(byId: EvidenceIndex, vs: seq<Evidence>) {
    && (forall id :: id in byId ==> byId[id] in vs && byId[id].Evidence? && byId[id].proposalId == Some(id))
    && (forall e :: e in vs && e.Evidence? && e.proposalId.Some? ==> e.proposalId.value in byId)
  }

  lemma EvidenceRepeats(vs: seq<Evidence>, i: nat, byId: EvidenceIndex)
    requires i < |vs| && vs[i].Evidence? && vs[i].proposalId.Some? && IndexesEvidence(byId, vs[..i])
    ensures vs[i].proposalId.value !in byId <==>
      forall j :: 0 <= j < i ==> vs[j].Evidence? ==> vs[j].proposalId != vs[i].proposalId
  {
    assert forall j :: 0 <= j < i ==> vs[j] in vs[..i];
    if vs[i].proposalId.value in byId {
      var j :| 0 <= j < i && vs[j] == byId[vs[i].proposalId.value];
    }
  }

  method CheckEvidence(es: seq<Enrollment>, byPeer: EnrollmentIndex, vs: seq<Evidence>)
    returns (errors: seq<Error>, byId: EvidenceIndex)
    requires IndexesPeers(byPeer, es)
    ensures AllEnrollmentsOk(es) ==> (errors == [] <==> AllEvidenceOk(es, vs))
    ensures IndexesEvidence(byId, vs)
  {
    errors, byId := [], map[];
    assert vs[..0] == [];
    for i := 0 to |vs|
      invariant AllEnrollmentsOk(es) ==> (errors == [] <==> forall j :: 0 <= j < i ==> EvidenceOk(es, vs, j))
      invariant IndexesEvidence(byId, vs[..i])
    {
      var e := vs[i];
      ghost var was := errors;
      assert vs[..i + 1] == vs[..i] + [e];
      if e.NoEvidence? {
        assert !EvidenceOk(es, vs, i);
        errors := errors + [EvidenceInvalid(i)];
        continue;
      }
      if e.proposalId.Some? {
        EvidenceRepeats(vs, i, byId);
      }
      if !e.fieldsOk {
        errors := errors + [EvidenceInvalid(i)];
      }
      if e.proposalId.None? || e.proposalId.value in byId {
        errors := errors + [EvidenceIdRepeated(i)];
      } else {
        byId := byId[e.proposalId.value := e];
      }
      var peer := if e.signer.Str? then e.signer.text else e.signer.rendering;
      if AllEnrollmentsOk(es) {
        SignerLookup(es, byPeer, e);
      }
      if peer !in byPeer || byPeer[peer].keyId != e.signerKey {
        errors := errors + [SignerNotEnrolled(i)];
      }
      if e.issuedAt.None? || e.expiresAt.None?
        || e.expiresAt.value <= e.issuedAt.value || e.expiresAt.value - e.issuedAt.value > 60_000
      {
        errors := errors + [WindowInvalid(i)];
      }
      assert AllEnrollmentsOk(es) ==> (errors == [] <==> was == [] && EvidenceOk(es, vs, i));
    }
    assert vs[..|vs|] == vs;
  }

  lemma SignerLookup(es: seq<Enrollment>, byPeer: EnrollmentIndex, e: Evidence)
    requires e.Evidence? && IndexesPeers(byPeer, es) && AllEnrollmentsOk(es)
    ensures var peer := Rendered(e.signer);
      SignerEnrolled(es, e) <==> peer in byPeer && byPeer[peer].keyId == e.signerKey
  {
    var peer := Rendered(e.signer);
    if x :| x in es && x.Enrollment? && x.peer == Some(peer) && x.keyId == e.signerKey {
      var i :| 0 <= i < |es| && es[i] == x;
      var j :| 0 <= j < |es| && es[j] == byPeer[peer];
      assert EnrollmentOk(es, i) && EnrollmentOk(es, j);
    }
  }

  /** The indices of the proposals that answer proposal `i`. */
  function Answers(vs: seq<Evidence>, i: nat, n: nat): (js: seq<nat>)
    requires i < |vs| && n <= |vs|
    ensures forall a :: 0 <= a < |js| ==> js[a] < n && Reciprocal(vs, i, js[a])
    ensures forall a, b :: 0 <= a < b < |js| ==> js[a] < js[b]
    ensures |js| > 1 ==> js[0] < js[1]
    ensures forall j: nat :: j < n && Reciprocal(vs, i, j) ==> j in js
  {
    if n == 0 then []
    else
      var js := Answers(vs, i, n - 1);
      if Reciprocal(vs, i, n - 1) then js + [n - 1] else js
  }

  lemma AnsweredIff(vs: seq<Evidence>, i: nat)
    requires i < |vs|
    ensures var js := Answers(vs, i, |vs|);
      Answered(vs, i) <==> (|js| == 1 && SameBound(vs[i], vs[js[0]]) && OpposedRoles(vs[i], vs[js[0]]))
  {
    var js := Answers(vs, i, |vs|);
    if Answered(vs, i) {
      var j :| 0 <= j < |vs| && Reciprocal(vs, i, j) && SameBound(vs[i], vs[j]) && OpposedRoles(vs[i], vs[j])
        && forall k :: 0 <= k < |vs| && Reciprocal(vs, i, k) ==> k == j;
      assert j in js;
      assert forall a :: 0 <= a < |js| ==> Reciprocal(vs, i, js[a]);
      assert forall a :: 0 <= a < |js| ==> js[a] == j;
    }
    if |js| == 1 && SameBound(vs[i], vs[js[0]]) && OpposedRoles(vs[i], vs[js[0]]) {
      var j := js[0];
      assert Reciprocal(vs, i, j);
      forall k | 0 <= k < |vs| && Reciprocal(vs, i, k) ensures k == j {
        assert k in js;
      }
    }
  }

  method CheckReciprocity(vs: seq<Evidence>) returns (errors: seq<Error>)
    ensures errors == [] <==> AllAnswered(vs)
  {
    errors := [];
    for i := 0 to |vs|
      invariant errors == [] <==> forall j :: 0 <= j < i && vs[j].Evidence? ==> Answered(vs, j)
    {
      if vs[i].NoEvidence? {
        continue;
      }
      var js := Answers(vs, i, |vs|);
      AnsweredIff(vs, i);
      if |js| != 1 {
        errors := errors + [NotReciprocal(i)];
        continue;
      }
      var e, answer := vs[i], vs[js[0]];
      if e.bound != answer.bound || e.issuedAt != answer.issuedAt || e.expiresAt != answer.expiresAt {
        errors := errors + [BoundFieldsDiffer(i)];
      }
      var owner, client := Str("group_owner"), Str("client");
      if e.role == answer.role || (e.role != owner && e.role != client)
        || (answer.role != owner && answer.role != client)
      {
        errors := errors + [RolesNotOpposed(i)];
      }
    }
  }

  function Pairs(vs: seq<Evidence>): set<(Value, Value)> {
    set e | e in vs && e.Evidence? :: (e.signer, e.counterparty)
  }

  /** The peer's own enrollment, by the lookup the validator makes. */
  predicate EnrolledByLookup(byId: EnrollmentIndex, p: Peer)
    requires p.Peer?
  {
    && p.enrollmentId.Some? && p.enrollmentId.value in byId
    && var e := byId[p.enrollmentId.value]; e.Enrollment? && e.peer == Some(p.id)
  }

  predicate VouchesByLookup(byId: EvidenceIndex, pairs: set<(Value, Value)>, p: Peer, id: Option<string>)
    requires p.Peer?
  {
    && id.Some? && id.value in byId
    && var e := byId[id.value];
       e.Evidence? && e.signer == Str(p.id)
       && (Str(p.id), e.counterparty) in pairs && (e.counterparty, Str(p.id)) in pairs
  }

  lemma EnrollmentLookup(es: seq<Enrollment>, byId: EnrollmentIndex, p: Peer)
    requires p.Peer? && IndexesIds(byId, es) && AllEnrollmentsOk(es)
    ensures EnrolledByLookup(byId, p) <==> IndependentlyEnrolled(es, p)
  {
    if IndependentlyEnrolled(es, p) {
      var i :| 0 <= i < |es| && es[i].Enrollment? && es[i].proposalId == p.enrollmentId && es[i].peer == Some(p.id);
      assert es[i] in es;
      var j :| 0 <= j < |es| && es[j] == byId[p.enrollmentId.value];
      assert EnrollmentOk(es, i) && EnrollmentOk(es, j);
    }
    if EnrolledByLookup(byId, p) {
      var j :| 0 <= j < |es| && es[j] == byId[p.enrollmentId.value];
    }
  }

  lemma VouchedIsAuthenticated(vs: seq<Evidence>, byId: EvidenceIndex, p: Peer, k: nat)
    requires p.Peer? && IndexesEvidence(byId, vs) && k < |p.evidenceIds|
    requires VouchesByLookup(byId, Pairs(vs), p, p.evidenceIds[k])
    ensures IndependentlyAuthenticated(vs, p)
  {
    var e := byId[p.evidenceIds[k].value];
    var i :| 0 <= i < |vs| && vs[i] == e;
    var x :| x in vs && x.Evidence? && x.signer == e.counterparty && x.counterparty == Str(p.id);
    var j :| 0 <= j < |vs| && vs[j] == x;
    assert Reciprocal(vs, i, j);
    assert vs[i].proposalId == p.evidenceIds[k] && vs[i].proposalId in p.evidenceIds;
  }

  lemma AuthenticatedIsVouched(es: seq<Enrollment>, vs: seq<Evidence>, byId: EvidenceIndex, p: Peer)
    requires p.Peer? && IndexesEvidence(byId, vs) && AllEvidenceOk(es, vs) && IndependentlyAuthenticated(vs, p)
    ensures exists k :: 0 <= k < |p.evidenceIds| && VouchesByLookup(byId, Pairs(vs), p, p.evidenceIds[k])
  {
    var i :| 0 <= i < |vs| && vs[i].Evidence? && vs[i].proposalId.Some? && vs[i].proposalId in p.evidenceIds
      && vs[i].signer == Str(p.id) && exists j :: 0 <= j < |vs| && Reciprocal(vs, i, j);
    var j :| 0 <= j < |vs| && Reciprocal(vs, i, j);
    assert vs[i] in vs && vs[j] in vs;
    var m :| 0 <= m < |vs| && vs[m] == byId[vs[i].proposalId.value];
    assert EvidenceOk(es, vs, i) && EvidenceOk(es, vs, m);
    assert (vs[i].signer, vs[i].counterparty) in Pairs(vs) && (vs[j].signer, vs[j].counterparty) in Pairs(vs);
    var k :| 0 <= k < |p.evidenceIds| && p.evidenceIds[k] == vs[i].proposalId;
    assert VouchesByLookup(byId, Pairs(vs), p, p.evidenceIds[k]);
  }

  lemma EvidenceLookup(es: seq<Enrollment>, vs: seq<Evidence>, byId: EvidenceIndex, p: Peer)
    requires p.Peer? && IndexesEvidence(byId, vs) && AllEvidenceOk(es, vs)
    ensures (exists k :: 0 <= k < |p.evidenceIds| && VouchesByLookup(byId, Pairs(vs), p, p.evidenceIds[k]))
       <==> IndependentlyAuthenticated(vs, p)
  {
    if k :| 0 <= k < |p.evidenceIds| && VouchesByLookup(byId, Pairs(vs), p, p.evidenceIds[k]) {
      VouchedIsAuthenticated(vs, byId, p, k);
    } else if IndependentlyAuthenticated(vs, p) {
      AuthenticatedIsVouched(es, vs, byId, p);
    }
  }

  method Authenticated(byId: EvidenceIndex, pairs: set<(Value, Value)>, p: Peer) returns (found: bool)
    requires p.Peer?
    ensures found <==> exists k :: 0 <= k < |p.evidenceIds| && VouchesByLookup(byId, pairs, p, p.evidenceIds[k])
  {
    for k := 0 to |p.evidenceIds|
      invariant forall m :: 0 <= m < k ==> !VouchesByLookup(byId, pairs, p, p.evidenceIds[m])
    {
      if VouchesByLookup(byId, pairs, p, p.evidenceIds[k]) {
        return true;
      }
    }
    return false;
  }

  method CheckPeers(es: seq<Enrollment>, vs: seq<Evidence>, byId: EnrollmentIndex, evidenceById: EvidenceIndex,
                    ps: seq<Peer>)
    returns (errors: seq<Error>)
    requires IndexesIds(byId, es) && IndexesEvidence(evidenceById, vs)
    ensures AllEnrollmentsOk(es) && AllEvidenceOk(es, vs) ==>
      (errors == [] <==> forall i :: 0 <= i < |ps| ==> PeerOk(es, vs, ps[i]))
  {
    errors := [];
    var pairs := Pairs(vs);
    for i := 0 to |ps|
      invariant AllEnrollmentsOk(es) && AllEvidenceOk(es, vs) ==>
        (errors == [] <==> forall j :: 0 <= j < i ==> PeerOk(es, vs, ps[j]))
    {
      var p := ps[i];
      if p.NoPeer? {
        errors := errors + [PeerInvalid(i)];
        continue;
      }
      if !p.fieldsOk {
        errors := errors + [PeerInvalid(i)];
      }
      var enrolled := EnrolledByLookup(byId, p);
      var authenticated := Authenticated(evidenceById, pairs, p);
      if AllEnrollmentsOk(es) && AllEvidenceOk(es, vs) {
        EnrollmentLookup(es, byId, p);
        EvidenceLookup(es, vs, evidenceById, p);
      }
      if p.status != if enrolled && authenticated then Eligible else Advisory {
        errors := errors + [StatusExceedsEvidence(i)];
      }
    }
  }

  /** No error means accepted, and the other way round. */
  method ValidateHandoff(d: Document) returns (errors: seq<Error>)
    ensures errors == [] <==> Accepted(d)
  {
    errors := if d.rootOk then [] else [RootInvalid];
    var es := if d.enrollments.Some? then d.enrollments.value else [];
    if es == [] {
      errors := errors + [EnrollmentsMissing];
    }
    var enrollmentErrors, byId, byPeer := CheckEnrollments(es);
    var vs := if d.evidence.Some? && |d.evidence.value| >= 2 then d.evidence.value else [];
    if vs == [] {
      errors := errors + [EvidenceMissing];
    }
    var evidenceErrors, evidenceById := CheckEvidence(es, byPeer, vs);
    var reciprocityErrors := CheckReciprocity(vs);
    var ps := if d.peers.Some? && |d.peers.value| >= 3 then d.peers.value else [];
    if ps == [] {
      errors := errors + [PeersMissing];
    }
    var sorted := CheckSorted(ps);
    if !sorted {
      errors := errors + [PeersUnsorted];
    }
    var peerErrors := CheckPeers(es, vs, byId, evidenceById, ps);
    errors := errors + enrollmentErrors + evidenceErrors + reciprocityErrors + peerErrors;
    errors := errors + seq(d.forbiddenFields, i => ForbiddenField);
  }

  // ---------------------------------------------------------------- what acceptance implies

  /** The proposal that answers proposal `i`. */
  ghost function Partner(vs: seq<Evidence>, i: nat): (j: nat)
    requires i < |vs| && Answered(vs, i)
    ensures j < |vs| && Reciprocal(vs, i, j) && SameBound(vs[i], vs[j]) && OpposedRoles(vs[i], vs[j])
    ensures forall k :: 0 <= k < |vs| && Reciprocal(vs, i, k) ==> k == j
  {
    var j :| 0 <= j < |vs| && Reciprocal(vs, i, j) && SameBound(vs[i], vs[j]) && OpposedRoles(vs[i], vs[j])
      && forall k :: 0 <= k < |vs| && Reciprocal(vs, i, k) ==> k == j;
    j
  }

  ghost predicate AllObjects(vs: seq<Evidence>) {
    forall i :: 0 <= i < |vs| ==> vs[i].Evidence?
  }

  /** Answering is a pairing: it undoes itself, nothing answers itself, and each pair has one of each role. */
  lemma PartnersPairUp(vs: seq<Evidence>, i: nat)
    requires AllObjects(vs) && AllAnswered(vs) && i < |vs|
    ensures var j := Partner(vs, i);
      j != i && Partner(vs, j) == i && OpposedRoles(vs[i], vs[j])
  {
    var j := Partner(vs, i);
    assert Reciprocal(vs, j, i);
  }

  /** No two proposals are from the same signer about the same counterparty, and none is about its signer. */
  lemma OrderedPairsDistinct(vs: seq<Evidence>, i: nat, j: nat)
    requires AllObjects(vs) && AllAnswered(vs) && i < |vs| && j < |vs|
    requires vs[i].signer == vs[j].signer && vs[i].counterparty == vs[j].counterparty
    ensures i == j && vs[i].signer != vs[i].counterparty
  {
    var k := Partner(vs, i);
    PartnersPairUp(vs, i);
    assert Reciprocal(vs, k, i) && Reciprocal(vs, k, j);
    assert vs[i].signer == vs[i].counterparty <==> Reciprocal(vs, i, i);
  }

  ghost function WithRole(vs: seq<Evidence>, role: Value): set<nat> {
    set i: nat | i < |vs| && vs[i].Evidence? && vs[i].role == role
  }

  /** A finite set that maps injectively into another has no more elements. */
  lemma {:induction false} InjectionBounds(a: set<nat>, b: set<nat>, f: map<nat, nat>)
    requires forall x :: x in a ==> x in f && f[x] in b
    requires forall x, y :: x in a && y in a && f[x] == f[y] ==> x == y
    ensures |a| <= |b|
    decreases a
  {
    if a != {} {
      var x :| x in a;
      InjectionBounds(a - {x}, b - {f[x]}, f);
    }
  }

  lemma RoleBounded(vs: seq<Evidence>, role: Value, other: Value)
    requires AllObjects(vs) && AllAnswered(vs)
    requires (role == OWNER && other == CLIENT) || (role == CLIENT && other == OWNER)
    ensures |WithRole(vs, role)| <= |WithRole(vs, other)|
  {
    var f := map i: nat | i < |vs| && vs[i].Evidence? :: Partner(vs, i);
    forall i | i in WithRole(vs, role) ensures i in f && f[i] in WithRole(vs, other) {
      PartnersPairUp(vs, i);
    }
    forall i, j | i in WithRole(vs, role) && j in WithRole(vs, role) && f[i] == f[j] ensures i == j {
      PartnersPairUp(vs, i);
      PartnersPairUp(vs, j);
    }
    InjectionBounds(WithRole(vs, role), WithRole(vs, other), f);
  }

  function Below(n: nat): (s: set<nat>)
    ensures |s| == n && forall i: nat :: i in s <==> i < n
  {
    if n == 0 then {} else Below(n - 1) + {n - 1}
  }

  /** As many group owners as clients, and no other proposal. */
  lemma RolesBalance(vs: seq<Evidence>)
    requires AllObjects(vs) && AllAnswered(vs)
    ensures |WithRole(vs, OWNER)| == |WithRole(vs, CLIENT)| && |vs| == 2 * |WithRole(vs, OWNER)|
  {
    RoleBounded(vs, OWNER, CLIENT);
    RoleBounded(vs, CLIENT, OWNER);
    var owners, clients := WithRole(vs, OWNER), WithRole(vs, CLIENT);
    forall i | i in Below(|vs|) ensures i in owners + clients {
      PartnersPairUp(vs, i);
    }
    assert Below(|vs|) == owners + clients;
    assert owners !! clients;
  }

  /** The partner of proposal `i` when there is one. */
  ghost predicate PairedWith(vs: seq<Evidence>, i: nat, j: nat)
    requires i < |vs| && j < |vs|
  {
    Answered(vs, i) && Partner(vs, i) == j
  }

  /** Proposal `i` has another proposal as its partner, whose partner it is in turn. */
  ghost predicate Paired(vs: seq<Evidence>, i: nat)
    requires i < |vs|
  {
    exists j: nat :: j < |vs| && j != i && PairedWith(vs, i, j) && PairedWith(vs, j, i)
  }

  /**
   An accepted handoff pairs up: as many group owners as clients, hence an even number of proposals.
   */
  lemma AcceptedPairsUp(d: Document)
    requires Accepted(d)
    ensures var vs := d.evidence.value;
      && |WithRole(vs, OWNER)| == |WithRole(vs, CLIENT)|
      && |vs| == 2 * |WithRole(vs, OWNER)|
      && forall i: nat :: i < |vs| ==> Paired(vs, i)
  {
    var vs := d.evidence.value;
    AcceptedIsObjects(d);
    RolesBalance(vs);
    forall i: nat | i < |vs| ensures Paired(vs, i) {
      assert Answered(vs, i);
      PartnersPairUp(vs, i);
      assert PairedWith(vs, i, Partner(vs, i));
    }
  }

  lemma AcceptedIsObjects(d: Document)
    requires Accepted(d)
    ensures AllObjects(d.evidence.value)
  {
    forall i | 0 <= i < |d.evidence.value| ensures d.evidence.value[i].Evidence? {
      assert EvidenceOk(d.enrollments.value, d.evidence.value, i);
    }
  }

  /** Both ends of a pair are enrolled, under the keys they sign with. */
  lemma BothEndsEnrolled(d: Document, i: nat, j: nat)
    requires Accepted(d) && i < |d.evidence.value| && j < |d.evidence.value| && PairedWith(d.evidence.value, i, j)
    ensures var vs := d.evidence.value;
      && vs[i].Evidence? && SignerEnrolled(d.enrollments.value, vs[i])
      && vs[j].Evidence? && SignerEnrolled(d.enrollments.value, vs[j])
      && vs[j].signer == vs[i].counterparty && SameBound(vs[i], vs[j])
  {
    assert EvidenceOk(d.enrollments.value, d.evidence.value, i) && EvidenceOk(d.enrollments.value, d.evidence.value, j);
  }

  /** In an accepted handoff a peer is eligible exactly with its own enrollment and a listed proposal it signed. */
  lemma EligibleIff(d: Document, p: Peer)
    requires Accepted(d) && p in d.peers.value
    ensures p.Peer?
    ensures p.status.Eligible? <==>
      IndependentlyEnrolled(d.enrollments.value, p)
      && exists i :: 0 <= i < |d.evidence.value| && d.evidence.value[i].Evidence?
           && d.evidence.value[i].proposalId in p.evidenceIds && d.evidence.value[i].signer == Str(p.id)
    ensures !p.status.Eligible? ==> p.status.Advisory?
  {
    var vs := d.evidence.value;
    assert PeerOk(d.enrollments.value, vs, p);
    if i :| 0 <= i < |vs| && vs[i].Evidence? && vs[i].proposalId in p.evidenceIds && vs[i].signer == Str(p.id) {
      assert EvidenceOk(d.enrollments.value, vs, i) && Answered(vs, i);
    }
  }

  // ---------------------------------------------------------------- acceptance, field by field

  /** The two proposals are about each other, share their bound fields and their window, and split the roles. */
  predicate AnswersInKind(a: Evidence, b: Evidence) {
    && a.Evidence? && b.Evidence?
    && a.signer == b.counterparty && a.counterparty == b.signer
    && a.bound == b.bound && a.issuedAt == b.issuedAt && a.expiresAt == b.expiresAt
    && (a.role == Str("group_owner") <==> b.role == Str("client"))
    && (a.role == Str("client") <==> b.role == Str("group_owner"))
    && (a.role == Str("group_owner") || a.role == Str("client"))
  }

  /**
   In an accepted handoff every proposal has an id of its own, a window of up to sixty seconds, an enrollment
   of its signer under the key it is signed with, and just one proposal about the same two, which answers it
   in kind.
   */
  lemma AcceptedProposalTells(d: Document, i: nat) returns (j: nat)
    requires Accepted(d) && i < |d.evidence.value|
    ensures var es, vs := d.enrollments.value, d.evidence.value;
      && j < |vs| && j != i && AnswersInKind(vs[i], vs[j])
      && AllObjects(vs)
      && (forall k :: 0 <= k < |vs| && vs[k].signer == vs[i].counterparty && vs[k].counterparty == vs[i].signer ==>
            k == j)
      && vs[i].issuedAt.Some? && vs[i].expiresAt.Some?
      && 0 < vs[i].expiresAt.value - vs[i].issuedAt.value <= 60_000
      && vs[i].proposalId.Some?
      && (forall k :: 0 <= k < |vs| && k != i ==> vs[k].proposalId != vs[i].proposalId)
      && exists x :: x in es && x.Enrollment? && x.peer.Some? && x.keyId == vs[i].signerKey
           && (vs[i].signer == Str(x.peer.value) || vs[i].signer == Other(x.peer.value))
  {
    var es, vs := d.enrollments.value, d.evidence.value;
    AcceptedIsObjects(d);
    assert Answered(vs, i) && EvidenceOk(es, vs, i);
    j := Partner(vs, i);
    PartnersPairUp(vs, i);
    forall k | 0 <= k < |vs| && k != i ensures vs[k].proposalId != vs[i].proposalId {
      assert EvidenceOk(es, vs, k);
    }
    forall k | 0 <= k < |vs| && vs[k].signer == vs[i].counterparty && vs[k].counterparty == vs[i].signer
      ensures k == j
    {
      assert Reciprocal(vs, i, k);
    }
    var x :| x in es && x.Enrollment? && x.peer == Some(Rendered(vs[i].signer)) && x.keyId == vs[i].signerKey;
  }

  /** Text order: the two agree up to some place, where the one ends or has the smaller character. */
  lemma {:induction false} TextBeforeIff(a: string, b: string)
    ensures TextBefore(a, b) <==> exists k :: 0 <= k <= |a| && k < |b| && a[..k] == b[..k] && (k == |a| || a[k] < b[k])
  {
    if a == "" {
      if b != "" {
        assert a[..0] == b[..0];
      }
    } else if b != "" {
      TextBeforeIff(a[1..], b[1..]);
      if TextBefore(a, b) {
        if a[0] < b[0] {
          assert a[..0] == b[..0];
        } else {
          var k :| 0 <= k <= |a[1..]| && k < |b[1..]| && a[1..][..k] == b[1..][..k]
            && (k == |a[1..]| || a[1..][k] < b[1..][k]);
          assert a[..k + 1] == [a[0]] + a[1..][..k] && b[..k + 1] == [b[0]] + b[1..][..k];
        }
      }
      if k :| 0 <= k <= |a| && k < |b| && a[..k] == b[..k] && (k == |a| || a[k] < b[k]) {
        if k > 0 {
          assert a[..k][0] == b[..k][0];
          assert a[1..][..k - 1] == a[..k][1..] && b[1..][..k - 1] == b[..k][1..];
        }
      }
    }
  }
}
