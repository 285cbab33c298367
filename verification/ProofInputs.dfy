/** Moving requested claims from proof schemas to proof input schemas
    (lib/migration/src/m20240314_141907_remove_proof_schema_claim_schema_relation.rs). */
module ProofInputs {
  import opened Wrappers

  /** A claim schema's row in credential_schema_claim_schema; the claim schema id is its key. */
  datatype Membership = Membership(credentialSchema: Id, order: nat, required: bool)

  datatype ProofSchema = ProofSchema(created: int, modified: int, validity: Option<int>)

  /** The other columns of a row in proof_schema_claim_schema. */
  datatype Asked = Asked(order: nat, required: bool)

  datatype Old = Old(
    claimSchemas: set<Id>, members: map<Id, Membership>, proofSchemas: map<Id, ProofSchema>,
    asks: map<(Id, Id), Asked>)  // by proof schema and claim schema

  datatype Input = Input(created: int, modified: int, order: nat, validity: Option<int>, credentialSchema: Id, proofSchema: Id)

  datatype InputClaim = InputClaim(claimSchema: Id, input: Id, order: nat, required: bool)

  /** Foreign keys hold, and every requested claim schema belongs to a credential schema. */
  ghost predicate ValidOld(old_: Old) {
    forall a | a in old_.asks :: a.0 in old_.proofSchemas && a.1 in old_.claimSchemas && a.1 in old_.members
  }

  /** The rows both queries join. */
  predicate Joined(old_: Old, a: (Id, Id)) {
    a in old_.asks && a.1 in old_.claimSchemas && a.1 in old_.members && a.0 in old_.proofSchemas
  }

  function InputOf(old_: Old, a: (Id, Id)): Input
    requires Joined(old_, a)
  {
    var p := old_.proofSchemas[a.0];
    Input(p.created, p.modified, 0, p.validity, old_.members[a.1].credentialSchema, a.0)
  }

  /** `SELECT DISTINCT` for the new input schemas. */
  function SelectInputs(old_: Old): set<Input> {
    set a | a in old_.asks && Joined(old_, a) :: InputOf(old_, a)
  }

  /** `SELECT DISTINCT` for their claims: joined to the inputs by credential schema alone, with the
      order and required flag of the membership. */
  function SelectInputClaims(old_: Old, inputs: map<Id, Input>): set<InputClaim> {
    set a, i | a in old_.asks && Joined(old_, a) && i in inputs
               && inputs[i].credentialSchema == old_.members[a.1].credentialSchema ::
      InputClaim(a.1, i, old_.members[a.1].order, old_.members[a.1].required)
  }

  // ----- What the result means

  /** The proof schema requests some claim of the credential schema. */
  ghost predicate Uses(old_: Old, credentialSchema: Id, proofSchema: Id) {
    exists a :: Joined(old_, a) && a.0 == proofSchema && old_.members[a.1].credentialSchema == credentialSchema
  }

  ghost predicate Requests(inputs: map<Id, Input>, claims: set<InputClaim>, proofSchema: Id, claim: Id) {
    exists r :: r in claims && r.claimSchema == claim && r.input in inputs && inputs[r.input].proofSchema == proofSchema
  }

  /** The same, with the order and required flag of the request. */
  ghost predicate RequestsWith(inputs: map<Id, Input>, claims: set<InputClaim>, proofSchema: Id, claim: Id, with: Asked) {
    exists r :: r in claims && r.claimSchema == claim && Asked(r.order, r.required) == with
                && r.input in inputs && inputs[r.input].proofSchema == proofSchema
  }

  /** Every selected row was inserted once, under an id of its own. */
  ghost predicate InsertedOnce(rows: set<Input>, inputs: map<Id, Input>) {
    && (forall i | i in inputs :: inputs[i] in rows)
    && (forall r | r in rows :: exists i :: i in inputs && inputs[i] == r)
    && (forall i, j | i in inputs && j in inputs && inputs[i] == inputs[j] :: i == j)
  }

  method Up(old_: Old) returns (inputs: map<Id, Input>, claims: set<InputClaim>)
    ensures InsertedOnce(SelectInputs(old_), inputs)
    ensures claims == SelectInputClaims(old_, inputs)
  {
    inputs := map[];
    var next: Id := 1;
    var todo := SelectInputs(old_);
    ghost var rows := todo;
    while todo != {}
      invariant todo <= rows
      invariant forall i | i in inputs :: i < next && inputs[i] in rows && inputs[i] !in todo
      invariant forall r | r in rows && r !in todo :: exists i :: i in inputs && inputs[i] == r
      invariant forall i, j | i in inputs && j in inputs && inputs[i] == inputs[j] :: i == j
      decreases |todo|
    {
      var row :| row in todo;
      ghost var before := inputs;
      inputs := inputs[next := row];
      todo := todo - {row};
      next := next + 1;
      forall r | r in rows && r !in todo
        ensures exists i :: i in inputs && inputs[i] == r
      {
        if r == row {
          assert inputs[next - 1] == r;
        } else {
          var i :| i in before && before[i] == r;
          assert inputs[i] == r;
        }
      }
    }
    claims := SelectInputClaims(old_, inputs);
  }

  lemma UsesInput(old_: Old, inputs: map<Id, Input>, credentialSchema: Id, proofSchema: Id) returns (i: Id)
    requires InsertedOnce(SelectInputs(old_), inputs) && Uses(old_, credentialSchema, proofSchema)
    ensures i in inputs && inputs[i].credentialSchema == credentialSchema && inputs[i].proofSchema == proofSchema
  {
    var a :| Joined(old_, a) && a.0 == proofSchema && old_.members[a.1].credentialSchema == credentialSchema;
    assert InputOf(old_, a) in SelectInputs(old_);
    i :| i in inputs && inputs[i] == InputOf(old_, a);
  }

  lemma InputUses(old_: Old, inputs: map<Id, Input>, i: Id)
    requires InsertedOnce(SelectInputs(old_), inputs) && i in inputs
    ensures Uses(old_, inputs[i].credentialSchema, inputs[i].proofSchema)
    ensures inputs[i].proofSchema in old_.proofSchemas
    ensures var p := old_.proofSchemas[inputs[i].proofSchema];
            inputs[i] == Input(p.created, p.modified, 0, p.validity, inputs[i].credentialSchema, inputs[i].proofSchema)
  {
    var a :| a in old_.asks && Joined(old_, a) && InputOf(old_, a) == inputs[i];
  }

  /** Exactly one input schema per used pair of credential schema and proof schema. */
  lemma OneInputPerUsedPair(old_: Old, inputs: map<Id, Input>, credentialSchema: Id, proofSchema: Id)
    requires InsertedOnce(SelectInputs(old_), inputs)
    ensures Uses(old_, credentialSchema, proofSchema) <==>
              exists i :: i in inputs && inputs[i].credentialSchema == credentialSchema && inputs[i].proofSchema == proofSchema
    ensures forall i, j | i in inputs && j in inputs && inputs[i].credentialSchema == credentialSchema == inputs[j].credentialSchema
                          && inputs[i].proofSchema == proofSchema == inputs[j].proofSchema :: i == j
  {
    if Uses(old_, credentialSchema, proofSchema) {
      var i := UsesInput(old_, inputs, credentialSchema, proofSchema);
    }
    forall i | i in inputs
      ensures Uses(old_, inputs[i].credentialSchema, inputs[i].proofSchema)
    {
      InputUses(old_, inputs, i);
    }
    forall i, j | i in inputs && j in inputs && inputs[i].credentialSchema == credentialSchema == inputs[j].credentialSchema
                  && inputs[i].proofSchema == proofSchema == inputs[j].proofSchema
      ensures i == j
    {
      InputUses(old_, inputs, i);
      InputUses(old_, inputs, j);
    }
  }

  /** The primary key of the input claims is never violated. */
  lemma InputClaimKeyUnique(old_: Old, inputs: map<Id, Input>, r: InputClaim, r': InputClaim)
    requires r in SelectInputClaims(old_, inputs) && r' in SelectInputClaims(old_, inputs)
    requires r.claimSchema == r'.claimSchema && r.input == r'.input
    ensures r == r'
  {
  }

  /** After the move a proof schema requests the claims anyone requested of a credential schema
      it uses. */
  lemma RequestsAfter(old_: Old, inputs: map<Id, Input>, proofSchema: Id, claim: Id)
    requires InsertedOnce(SelectInputs(old_), inputs)
    ensures Requests(inputs, SelectInputClaims(old_, inputs), proofSchema, claim) <==>
              && (exists a :: Joined(old_, a) && a.1 == claim)
              && claim in old_.members && Uses(old_, old_.members[claim].credentialSchema, proofSchema)
  {
    var claims := SelectInputClaims(old_, inputs);
    if Requests(inputs, claims, proofSchema, claim) {
      var r :| r in claims && r.claimSchema == claim && r.input in inputs && inputs[r.input].proofSchema == proofSchema;
      var a, i :| a in old_.asks && Joined(old_, a) && i in inputs
                  && inputs[i].credentialSchema == old_.members[a.1].credentialSchema
                  && r == InputClaim(a.1, i, old_.members[a.1].order, old_.members[a.1].required);
      InputUses(old_, inputs, i);
    }
    if a :| Joined(old_, a) && a.1 == claim {
      if Uses(old_, old_.members[claim].credentialSchema, proofSchema) {
        var i := UsesInput(old_, inputs, old_.members[claim].credentialSchema, proofSchema);
        var r := InputClaim(claim, i, old_.members[claim].order, old_.members[claim].required);
        assert a in old_.asks && r in claims;
      }
    }
  }

  /** No requested claim is lost. */
  lemma NoRequestLost(old_: Old, inputs: map<Id, Input>, a: (Id, Id))
    requires ValidOld(old_) && InsertedOnce(SelectInputs(old_), inputs) && a in old_.asks
    ensures Requests(inputs, SelectInputClaims(old_, inputs), a.0, a.1)
  {
    assert Joined(old_, a);
    RequestsAfter(old_, inputs, a.0, a.1);
  }

  /** Every request has the order and required flag of its claim's membership. */
  lemma RequestsWithAfter(old_: Old, inputs: map<Id, Input>, proofSchema: Id, claim: Id, with: Asked)
    ensures var claims := SelectInputClaims(old_, inputs);
            RequestsWith(inputs, claims, proofSchema, claim, with) <==>
              && Requests(inputs, claims, proofSchema, claim)
              && claim in old_.members && with == AsMember(old_, claim)
  {
    var claims := SelectInputClaims(old_, inputs);
    forall r | r in claims
      ensures r.claimSchema in old_.members && Asked(r.order, r.required) == AsMember(old_, r.claimSchema)
    {
      var a, i :| a in old_.asks && Joined(old_, a) && i in inputs
                  && inputs[i].credentialSchema == old_.members[a.1].credentialSchema
                  && r == InputClaim(a.1, i, old_.members[a.1].order, old_.members[a.1].required);
    }
    if Requests(inputs, claims, proofSchema, claim) && claim in old_.members && with == AsMember(old_, claim) {
      var r :| r in claims && r.claimSchema == claim && r.input in inputs && inputs[r.input].proofSchema == proofSchema;
      assert Asked(r.order, r.required) == with;
    }
  }

  function AsMember(old_: Old, claim: Id): Asked
    requires claim in old_.members
  {
    Asked(old_.members[claim].order, old_.members[claim].required)
  }

  /** Proof schemas that use the same credential schema request the same of its claims. */
  ghost predicate UsersAgree(old_: Old) {
    forall a, p | Joined(old_, a) && Uses(old_, old_.members[a.1].credentialSchema, p) :: (p, a.1) in old_.asks
  }

  /** Requests have the order and required flag that the claims have in their credential schema. */
  ghost predicate FlagsAgree(old_: Old) {
    forall a | Joined(old_, a) :: old_.asks[a] == AsMember(old_, a.1)
  }

  ghost predicate Reproduced(old_: Old, inputs: map<Id, Input>) {
    forall p, claim :: Requests(inputs, SelectInputClaims(old_, inputs), p, claim) <==> (p, claim) in old_.asks
  }

  ghost predicate AskedWith(old_: Old, p: Id, claim: Id, with: Asked) {
    (p, claim) in old_.asks && old_.asks[(p, claim)] == with
  }

  /** Each request comes out as it was, with its order and required flag. */
  ghost predicate FullyReproduced(old_: Old, inputs: map<Id, Input>) {
    forall p, claim, with ::
      RequestsWith(inputs, SelectInputClaims(old_, inputs), p, claim, with) <==> AskedWith(old_, p, claim, with)
  }

  /** The pairs of proof schema and claim come out unchanged exactly when proof schemas sharing a
      credential schema agree on the claims they request of it. */
  lemma ReproducedIffUsersAgree(old_: Old, inputs: map<Id, Input>)
    requires ValidOld(old_) && InsertedOnce(SelectInputs(old_), inputs)
    ensures Reproduced(old_, inputs) <==> UsersAgree(old_)
  {
    if UsersAgree(old_) {
      forall p, claim
        ensures Requests(inputs, SelectInputClaims(old_, inputs), p, claim) <==> (p, claim) in old_.asks
      {
        RequestsAfter(old_, inputs, p, claim);
        if (p, claim) in old_.asks {
          NoRequestLost(old_, inputs, (p, claim));
        }
      }
    }
    if Reproduced(old_, inputs) {
      forall a, p | Joined(old_, a) && Uses(old_, old_.members[a.1].credentialSchema, p)
        ensures (p, a.1) in old_.asks
      {
        RequestsAfter(old_, inputs, p, a.1);
      }
    }
  }

  lemma AgreementReproduces(old_: Old, inputs: map<Id, Input>, p: Id, claim: Id, with: Asked)
    requires ValidOld(old_) && InsertedOnce(SelectInputs(old_), inputs) && FlagsAgree(old_)
    requires Requests(inputs, SelectInputClaims(old_, inputs), p, claim) <==> (p, claim) in old_.asks
    ensures RequestsWith(inputs, SelectInputClaims(old_, inputs), p, claim, with) <==> AskedWith(old_, p, claim, with)
  {
    RequestsWithAfter(old_, inputs, p, claim, with);
    if (p, claim) in old_.asks {
      assert Joined(old_, (p, claim));
    }
  }

  lemma FullReproductionAgrees(old_: Old, inputs: map<Id, Input>)
    requires ValidOld(old_) && InsertedOnce(SelectInputs(old_), inputs) && FullyReproduced(old_, inputs)
    ensures Reproduced(old_, inputs) && FlagsAgree(old_)
  {
    var claims := SelectInputClaims(old_, inputs);
    forall p, claim
      ensures Requests(inputs, claims, p, claim) <==> (p, claim) in old_.asks
    {
      RequestsAfter(old_, inputs, p, claim);
      if (p, claim) in old_.asks {
        NoRequestLost(old_, inputs, (p, claim));
      } else if Requests(inputs, claims, p, claim) {
        RequestsWithAfter(old_, inputs, p, claim, AsMember(old_, claim));
      }
    }
    forall a | Joined(old_, a)
      ensures old_.asks[a] == AsMember(old_, a.1)
    {
      assert a == (a.0, a.1) && AskedWith(old_, a.0, a.1, old_.asks[a]);
      RequestsWithAfter(old_, inputs, a.0, a.1, old_.asks[a]);
    }
  }

  /** The old relation with all its columns comes out unchanged exactly when, in addition, every
      request has the order and required flag of its claim in the credential schema. */
  lemma FullyReproducedIffAllAgree(old_: Old, inputs: map<Id, Input>)
    requires ValidOld(old_) && InsertedOnce(SelectInputs(old_), inputs)
    ensures FullyReproduced(old_, inputs) <==> UsersAgree(old_) && FlagsAgree(old_)
  {
    ReproducedIffUsersAgree(old_, inputs);
    if UsersAgree(old_) && FlagsAgree(old_) {
      forall p, claim, with
        ensures RequestsWith(inputs, SelectInputClaims(old_, inputs), p, claim, with) <==> AskedWith(old_, p, claim, with)
      {
        AgreementReproduces(old_, inputs, p, claim, with);
      }
    } else if FullyReproduced(old_, inputs) {
      FullReproductionAgrees(old_, inputs);
    }
  }

  /** Only one proof schema uses the credential schema. */
  ghost predicate SingleUser(old_: Old, credentialSchema: Id, proofSchema: Id) {
    forall q | Uses(old_, credentialSchema, q) :: q == proofSchema
  }

  /** A credential schema used by one proof schema keeps exactly its requests. */
  lemma SingleUserReproduced(old_: Old, inputs: map<Id, Input>, credentialSchema: Id, proofSchema: Id, p: Id, claim: Id)
    requires ValidOld(old_) && InsertedOnce(SelectInputs(old_), inputs) && SingleUser(old_, credentialSchema, proofSchema)
    requires claim in old_.members && old_.members[claim].credentialSchema == credentialSchema
    ensures Requests(inputs, SelectInputClaims(old_, inputs), p, claim) <==> (p, claim) in old_.asks
  {
    RequestsAfter(old_, inputs, p, claim);
    if (p, claim) in old_.asks {
      NoRequestLost(old_, inputs, (p, claim));
    } else if Requests(inputs, SelectInputClaims(old_, inputs), p, claim) {
      var a :| Joined(old_, a) && a.1 == claim;
      assert Uses(old_, credentialSchema, a.0);
    }
  }

  /** The requests for one claim come out as they were. */
  ghost predicate ClaimReproduced(old_: Old, inputs: map<Id, Input>, claim: Id) {
    forall p, with :: RequestsWith(inputs, SelectInputClaims(old_, inputs), p, claim, with) <==> AskedWith(old_, p, claim, with)
  }

  /** And it keeps the order and required flag of a request exactly when those are the claim's own. */
  lemma SingleUserKeepsFlags(old_: Old, inputs: map<Id, Input>, credentialSchema: Id, proofSchema: Id, claim: Id)
    requires ValidOld(old_) && InsertedOnce(SelectInputs(old_), inputs) && SingleUser(old_, credentialSchema, proofSchema)
    requires claim in old_.members && old_.members[claim].credentialSchema == credentialSchema
    ensures ClaimReproduced(old_, inputs, claim) <==>
              ((proofSchema, claim) in old_.asks ==> old_.asks[(proofSchema, claim)] == AsMember(old_, claim))
  {
    var claims := SelectInputClaims(old_, inputs);
    forall p, with
      ensures RequestsWith(inputs, claims, p, claim, with) <==> (p, claim) in old_.asks && with == AsMember(old_, claim)
    {
      SingleUserReproduced(old_, inputs, credentialSchema, proofSchema, p, claim);
      RequestsWithAfter(old_, inputs, p, claim, with);
    }
    forall p | (p, claim) in old_.asks
      ensures p == proofSchema
    {
      assert Joined(old_, (p, claim)) && (p, claim).0 == p && (p, claim).1 == claim;
      assert Uses(old_, credentialSchema, p);
    }
    if ClaimReproduced(old_, inputs, claim) && (proofSchema, claim) in old_.asks {
      assert AskedWith(old_, proofSchema, claim, old_.asks[(proofSchema, claim)]);
    }
  }

  // ----- Two inputs on which the relation changes

  /** Two proof schemas, each with its own claim of one credential schema. */
  function SpreadExample(): Old {
    Old({1, 2}, map[1 := Membership(10, 0, true), 2 := Membership(10, 1, true)],
        map[20 := ProofSchema(0, 0, None), 21 := ProofSchema(0, 0, None)],
        map[(20, 1) := Asked(0, true), (21, 2) := Asked(1, true)])
  }

  /** The join does spread requests: proof schema 20 ends up with claim 2 as well. */
  lemma RequestsCanSpread(old_: Old, inputs: map<Id, Input>)
    requires old_ == SpreadExample() && InsertedOnce(SelectInputs(old_), inputs)
    ensures ValidOld(old_) && (20, 2) !in old_.asks && Requests(inputs, SelectInputClaims(old_, inputs), 20, 2)
  {
    assert Joined(old_, (20, 1)) && Joined(old_, (21, 2));
    assert (20, 1).0 == 20 && old_.members[(20, 1).1].credentialSchema == 10;
    assert Uses(old_, 10, 20);
    assert (21, 2).1 == 2;
    RequestsAfter(old_, inputs, 20, 2);
  }

  /** One proof schema asks, as its fourth and optional claim, for a required first claim. */
  function OverwriteExample(): Old {
    Old({1}, map[1 := Membership(10, 0, true)], map[20 := ProofSchema(0, 0, None)], map[(20, 1) := Asked(3, false)])
  }

  /** Order and required flag are overwritten even where all users agree. */
  lemma FlagsCanBeOverwritten(old_: Old, inputs: map<Id, Input>)
    requires old_ == OverwriteExample() && InsertedOnce(SelectInputs(old_), inputs)
    ensures ValidOld(old_) && UsersAgree(old_) && old_.asks[(20, 1)] == Asked(3, false)
    ensures RequestsWith(inputs, SelectInputClaims(old_, inputs), 20, 1, Asked(0, true))
    ensures !RequestsWith(inputs, SelectInputClaims(old_, inputs), 20, 1, Asked(3, false))
  {
    NoRequestLost(old_, inputs, (20, 1));
    RequestsWithAfter(old_, inputs, 20, 1, Asked(0, true));
    RequestsWithAfter(old_, inputs, 20, 1, Asked(3, false));
  }
}
