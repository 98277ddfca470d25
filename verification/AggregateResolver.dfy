/** Resolving a mixed batch: partition by resource type, ask the resolver of each type, check and merge. */
module AggregateResolver {
  import opened Common
  import opened Projections
  import opened ContentProjection

  /** A type-specific batch resolver, about which nothing is assumed: it may fail, omit messages, invent
      messages, or return nil (None) or wrong projections. */
  type Resolver = map<MessageId, Occurrence> -> Result<map<MessageId, Option<Projection>>>

  /** Any of the four may be missing. */
  type Resolvers = ResourceType -> Option<Resolver>

  /** Projection.Validate */
  type Validator = Projection -> bool

  const KINDS: seq<ResourceType> := [Profile, Content, ForSale, Auction]

  predicate WellFormed(occurrences: map<MessageId, Option<Occurrence>>) {
    forall m :: m in occurrences ==> occurrences[m].Some? && TypeOf(occurrences[m].value).Some?
  }

  /** The messages of one type. */
  function Part(occurrences: map<MessageId, Option<Occurrence>>, kind: ResourceType): map<MessageId, Occurrence> {
    map m | m in occurrences && occurrences[m].Some? && TypeOf(occurrences[m].value) == Some(kind) ::
      occurrences[m].value
  }

  /** The projection is there, valid, and about the very resource of the occurrence. */
  predicate Matches(validate: Validator, occurrence: Occurrence, projection: Option<Projection>) {
    && projection.Some? && validate(projection.value)
    && projection.value.kind == TypeOf(occurrence) && projection.value.id == SourceId(occurrence)
  }

  /** The resolver answered for exactly its own messages, each with a matching projection. */
  predicate Faithful(validate: Validator, expected: map<MessageId, Occurrence>,
                     resolved: map<MessageId, Option<Projection>>)
  {
    resolved.Keys == expected.Keys && forall m :: m in expected ==> Matches(validate, expected[m], resolved[m])
  }

  predicate Answered(resolvers: Resolvers, validate: Validator, occurrences: map<MessageId, Option<Occurrence>>,
                     kind: ResourceType)
  {
    var part := Part(occurrences, kind);
    part == map[] ||
    (resolvers(kind).Some? && resolvers(kind).value(part).Ok? &&
     Faithful(validate, part, resolvers(kind).value(part).value))
  }

  function Values(resolved: map<MessageId, Option<Projection>>): map<MessageId, Projection> {
    map m | m in resolved && resolved[m].Some? :: resolved[m].value
  }

  /** What the resolver of one type says. */
  function AnswerOf(resolvers: Resolvers, occurrences: map<MessageId, Option<Occurrence>>, kind: ResourceType)
    : map<MessageId, Projection>
  {
    var part := Part(occurrences, kind);
    if part == map[] || resolvers(kind).None? || resolvers(kind).value(part).Err? then map[]
    else Values(resolvers(kind).value(part).value)
  }

  /** The loop that files each occurrence under its type; Err if one is nil or of no type. */
  method Partition(occurrences: map<MessageId, Option<Occurrence>>)
    returns (r: Result<map<ResourceType, map<MessageId, Occurrence>>>)
    ensures r.Ok? <==> WellFormed(occurrences)
    ensures r.Ok? ==> forall kind :: kind in r.value && r.value[kind] == Part(occurrences, kind)
  {
    var parts: map<ResourceType, map<MessageId, Occurrence>> :=
      map[Profile := map[], Content := map[], ForSale := map[], Auction := map[]];
    var pending := occurrences.Keys;
    forall kind ensures kind in parts && parts[kind] == Part(occurrences, kind) - pending {
      match kind
      case Profile => case Content => case ForSale => case Auction =>
    }
    while pending != {}
      invariant pending <= occurrences.Keys
      invariant forall m :: m in occurrences && m !in pending ==>
        occurrences[m].Some? && TypeOf(occurrences[m].value).Some?
      invariant forall kind :: kind in parts && parts[kind] == Part(occurrences, kind) - pending
    {
      var m :| m in pending;
      if occurrences[m].None? || TypeOf(occurrences[m].value).None? {
        return Err("malformed occurrence");
      }
      var kind := TypeOf(occurrences[m].value).value;
      ghost var before := parts;
      parts := parts[kind := parts[kind][m := occurrences[m].value]];
      forall k ensures parts[k] == Part(occurrences, k) - (pending - {m}) {
        assert before[k] == Part(occurrences, k) - pending;
      }
      pending := pending - {m};
    }
    return Ok(parts);
  }

  /** mergeResolvedProjections: check every projection on its way into dst, then check that none is missing. */
  method Merge(validate: Validator, dst: map<MessageId, Projection>, expected: map<MessageId, Occurrence>,
               resolved: map<MessageId, Option<Projection>>)
    returns (r: Result<map<MessageId, Projection>>)
    ensures r.Ok? <==> Faithful(validate, expected, resolved)
    ensures r.Ok? ==> r.value == dst + Values(resolved)
  {
    hide Matches, Values;
    var merged := dst;
    var pending := resolved.Keys;
    while pending != {}
      invariant pending <= resolved.Keys
      invariant forall m :: m in resolved && m !in pending ==>
        m in expected && Matches(validate, expected[m], resolved[m]) && resolved[m].Some?
      invariant merged.Keys == dst.Keys + (resolved.Keys - pending)
      invariant forall m :: m in merged ==>
        merged[m] == if m in resolved && m !in pending then resolved[m].value else dst[m]
    {
      var m :| m in pending;
      pending := pending - {m};
      if m !in expected {
        return Err("resolver returned unexpected projection");
      }
      if !Matches(validate, expected[m], resolved[m]) {
        return Err("nil, invalid or mismatched projection");
      }
      MatchIsThere(validate, expected[m], resolved[m]);
      merged := merged[m := resolved[m].value];
    }
    if exists m :: m in expected && m !in resolved {
      return Err("resolver omitted projection");
    }
    UnionOfValues(dst, resolved, merged);
    return Ok(merged);
  }

  lemma UnionOfValues(dst: map<MessageId, Projection>, resolved: map<MessageId, Option<Projection>>,
                      merged: map<MessageId, Projection>)
    requires forall m :: m in resolved ==> resolved[m].Some?
    requires merged.Keys == dst.Keys + resolved.Keys
    requires forall m :: m in merged ==> merged[m] == if m in resolved then resolved[m].value else dst[m]
    ensures merged == dst + Values(resolved)
  {
    assert Values(resolved).Keys == resolved.Keys;
  }

  lemma MatchIsThere(validate: Validator, occurrence: Occurrence, projection: Option<Projection>)
    requires Matches(validate, occurrence, projection)
    ensures projection.Some?
  {
  }

  /** What the resolvers of the first k types say, together. */
  function Merged(resolvers: Resolvers, occurrences: map<MessageId, Option<Occurrence>>, k: nat)
    : map<MessageId, Projection>
    requires k <= |KINDS|
  {
    if k == 0 then map[] else Merged(resolvers, occurrences, k - 1) + AnswerOf(resolvers, occurrences, KINDS[k - 1])
  }

  /** The block of one type: nothing to ask, no resolver, its error, or its answers merged. */
  method ResolveKind(resolvers: Resolvers, validate: Validator, part: map<MessageId, Occurrence>, kind: ResourceType,
                     dst: map<MessageId, Projection>, ghost occurrences: map<MessageId, Option<Occurrence>>)
    returns (r: Result<map<MessageId, Projection>>)
    requires part == Part(occurrences, kind)
    ensures r.Ok? <==> Answered(resolvers, validate, occurrences, kind)
    ensures r.Ok? ==> r.value == dst + AnswerOf(resolvers, occurrences, kind)
  {
    hide Part, Faithful, Values;
    if part == map[] {
      return Ok(dst);
    }
    if resolvers(kind).None? {
      return Err("projection resolver not configured");
    }
    var resolved := resolvers(kind).value(part);
    if resolved.Err? {
      return Err(resolved.message);
    }
    r := Merge(validate, dst, part, resolved.value);
  }

  lemma AllKinds(kind: ResourceType)
    ensures exists i :: 0 <= i < |KINDS| && KINDS[i] == kind
  {
    assert KINDS[0] == Profile && KINDS[1] == Content && KINDS[2] == ForSale && KINDS[3] == Auction;
  }

  /** ResolveResourceProjections: it succeeds if and only if every occurrence is well formed and every type that
      occurs has a resolver that answers for exactly its own messages with matching projections. */
  method Resolve(resolvers: Resolvers, validate: Validator, occurrences: map<MessageId, Option<Occurrence>>)
    returns (r: Result<map<MessageId, Projection>>)
    ensures r.Ok? <==> WellFormed(occurrences) && forall kind :: Answered(resolvers, validate, occurrences, kind)
    ensures r.Ok? ==> r.value == Merged(resolvers, occurrences, |KINDS|)
  {
    hide Part, WellFormed, Answered, AnswerOf;
    var parts := Partition(occurrences);
    if parts.Err? {
      return Err(parts.message);
    }
    var result: map<MessageId, Projection> := map[];
    for i := 0 to |KINDS|
      invariant forall j :: 0 <= j < i ==> Answered(resolvers, validate, occurrences, KINDS[j])
      invariant result == Merged(resolvers, occurrences, i)
    {
      var merged := ResolveKind(resolvers, validate, parts.value[KINDS[i]], KINDS[i], result, occurrences);
      if merged.Err? {
        return Err(merged.message);
      }
      result := merged.value;
    }
    forall kind ensures Answered(resolvers, validate, occurrences, kind) {
      AllKinds(kind);
    }
    return Ok(result);
  }

  /** MAIN: when the aggregate succeeds, its result has exactly the messages it was asked about; each
      projection is valid, carries the type and the source id of its own occurrence, and is the one the
      resolver of that type gave for that message, whatever the resolvers are. */
  lemma {:induction false} SuccessIsFaithful(resolvers: Resolvers, validate: Validator,
                                             occurrences: map<MessageId, Option<Occurrence>>)
    requires WellFormed(occurrences)
    requires forall kind :: Answered(resolvers, validate, occurrences, kind)
    ensures var result := Merged(resolvers, occurrences, |KINDS|);
      && result.Keys == occurrences.Keys
      && forall m :: m in occurrences ==>
           var kind := TypeOf(occurrences[m].value).value;
           && validate(result[m]) && result[m].kind == Some(kind) && result[m].id == SourceId(occurrences[m].value)
           && resolvers(kind).Some? && resolvers(kind).value(Part(occurrences, kind)).Ok?
           && m in resolvers(kind).value(Part(occurrences, kind)).value
           && resolvers(kind).value(Part(occurrences, kind)).value[m] == Some(result[m])
  {
    hide AnswerOf, Merged, Part, Answered;
    MergedKeys(resolvers, validate, occurrences);
    forall m | m in occurrences
      ensures var kind := TypeOf(occurrences[m].value).value;
        && (var projection := Merged(resolvers, occurrences, |KINDS|)[m];
            validate(projection) && projection.kind == Some(kind) && projection.id == SourceId(occurrences[m].value))
        && resolvers(kind).Some? && resolvers(kind).value(Part(occurrences, kind)).Ok?
        && m in resolvers(kind).value(Part(occurrences, kind)).value
        && resolvers(kind).value(Part(occurrences, kind)).value[m] ==
             Some(Merged(resolvers, occurrences, |KINDS|)[m])
    {
      MergedAt(resolvers, validate, occurrences, m);
      InOwnPart(occurrences, m);
      AnswerCovers(resolvers, validate, occurrences, TypeOf(occurrences[m].value).value);
    }
  }

  /** If the type occurs there is a resolver which, asked about all messages of that type and no others, answers
      without error, for exactly these messages, with a valid projection that carries the message's own type and
      source id. */
  ghost predicate WellAnswered(resolvers: Resolvers, validate: Validator,
                               occurrences: map<MessageId, Option<Occurrence>>, kind: ResourceType)
    requires forall m :: m in occurrences ==> occurrences[m].Some?
  {
    var asked := map m | m in occurrences && TypeOf(occurrences[m].value) == Some(kind) :: occurrences[m].value;
    asked != map[] ==>
      && resolvers(kind).Some?
      && var answer := resolvers(kind).value(asked);
      && answer.Ok? && answer.value.Keys == asked.Keys
      && forall m :: m in asked ==>
           && answer.value[m].Some? && validate(answer.value[m].value)
           && answer.value[m].value.kind == Some(kind) && answer.value[m].value.id == SourceId(asked[m])
  }

  /** MAIN: it succeeds exactly if each occurrence is there and has a type, and each type that occurs is answered
      well. */
  lemma SucceedsIff(resolvers: Resolvers, validate: Validator, occurrences: map<MessageId, Option<Occurrence>>)
    ensures (WellFormed(occurrences) && forall kind :: Answered(resolvers, validate, occurrences, kind)) <==>
      && (forall m :: m in occurrences ==> occurrences[m].Some? && TypeOf(occurrences[m].value).Some?)
      && forall kind :: WellAnswered(resolvers, validate, occurrences, kind)
  {
    if WellFormed(occurrences) {
      forall kind
        ensures Answered(resolvers, validate, occurrences, kind) <==>
          WellAnswered(resolvers, validate, occurrences, kind)
      {
        AnsweredIff(resolvers, validate, occurrences, kind);
      }
    }
  }

  lemma AnsweredIff(resolvers: Resolvers, validate: Validator, occurrences: map<MessageId, Option<Occurrence>>,
                    kind: ResourceType)
    requires WellFormed(occurrences)
    ensures Answered(resolvers, validate, occurrences, kind) <==> WellAnswered(resolvers, validate, occurrences, kind)
  {
    var asked := map m | m in occurrences && TypeOf(occurrences[m].value) == Some(kind) :: occurrences[m].value;
    assert Part(occurrences, kind) == asked;
    if asked != map[] && resolvers(kind).Some? && resolvers(kind).value(asked).Ok? {
      var answer := resolvers(kind).value(asked).value;
      assert forall m :: m in asked ==> TypeOf(asked[m]) == Some(kind);
      assert Faithful(validate, asked, answer) <==>
        answer.Keys == asked.Keys && forall m :: m in asked ==> Matches(validate, asked[m], answer[m]);
    }
  }

  lemma InOwnPart(occurrences: map<MessageId, Option<Occurrence>>, m: MessageId)
    requires WellFormed(occurrences) && m in occurrences
    ensures forall kind :: m in Part(occurrences, kind) <==> kind == TypeOf(occurrences[m].value).value
    ensures var kind := TypeOf(occurrences[m].value).value;
      m in Part(occurrences, kind) && Part(occurrences, kind)[m] == occurrences[m].value
  {
  }

  lemma {:induction false} MergedAt(resolvers: Resolvers, validate: Validator,
                                    occurrences: map<MessageId, Option<Occurrence>>, m: MessageId)
    requires WellFormed(occurrences) && m in occurrences
    requires forall kind :: Answered(resolvers, validate, occurrences, kind)
    ensures var kind := TypeOf(occurrences[m].value).value;
      && m in AnswerOf(resolvers, occurrences, kind) && m in Merged(resolvers, occurrences, |KINDS|)
      && Merged(resolvers, occurrences, |KINDS|)[m] == AnswerOf(resolvers, occurrences, kind)[m]
  {
    hide AnswerOf, Part, Answered, Merged;
    MergedAll(resolvers, occurrences);
    InOwnPart(occurrences, m);
    KeysOfAnswers(resolvers, validate, occurrences);
    var kind := TypeOf(occurrences[m].value).value;
    assert kind in {Profile, Content, ForSale, Auction};
  }

  lemma KeysOfAnswers(resolvers: Resolvers, validate: Validator, occurrences: map<MessageId, Option<Occurrence>>)
    requires forall kind :: Answered(resolvers, validate, occurrences, kind)
    ensures forall kind :: AnswerOf(resolvers, occurrences, kind).Keys == Part(occurrences, kind).Keys
  {
    hide AnswerOf, Part, Answered;
    forall kind ensures AnswerOf(resolvers, occurrences, kind).Keys == Part(occurrences, kind).Keys {
      AnswerCovers(resolvers, validate, occurrences, kind);
    }
  }

  lemma {:induction false} MergedKeys(resolvers: Resolvers, validate: Validator,
                                      occurrences: map<MessageId, Option<Occurrence>>)
    requires WellFormed(occurrences)
    requires forall kind :: Answered(resolvers, validate, occurrences, kind)
    ensures Merged(resolvers, occurrences, |KINDS|).Keys == occurrences.Keys
  {
    hide AnswerOf, Answered, Merged;
    MergedAll(resolvers, occurrences);
    KeysOfAnswers(resolvers, validate, occurrences);
    forall m | m in occurrences ensures m in Merged(resolvers, occurrences, |KINDS|) {
      MergedAt(resolvers, validate, occurrences, m);
    }
    assert forall kind :: Part(occurrences, kind).Keys <= occurrences.Keys;
  }

  lemma AnswerCovers(resolvers: Resolvers, validate: Validator, occurrences: map<MessageId, Option<Occurrence>>,
                     kind: ResourceType)
    requires Answered(resolvers, validate, occurrences, kind)
    ensures AnswerOf(resolvers, occurrences, kind).Keys == Part(occurrences, kind).Keys
    ensures forall m :: m in Part(occurrences, kind) ==>
      && resolvers(kind).Some? && resolvers(kind).value(Part(occurrences, kind)).Ok?
      && m in resolvers(kind).value(Part(occurrences, kind)).value
      && resolvers(kind).value(Part(occurrences, kind)).value[m] == Some(AnswerOf(resolvers, occurrences, kind)[m])
      && Matches(validate, Part(occurrences, kind)[m], Some(AnswerOf(resolvers, occurrences, kind)[m]))
  {
  }

  lemma {:induction false} MergedAll(resolvers: Resolvers, occurrences: map<MessageId, Option<Occurrence>>)
    ensures Merged(resolvers, occurrences, |KINDS|) ==
      AnswerOf(resolvers, occurrences, Profile) + AnswerOf(resolvers, occurrences, Content) +
      AnswerOf(resolvers, occurrences, ForSale) + AnswerOf(resolvers, occurrences, Auction)
  {
    assert Merged(resolvers, occurrences, 0) == map[];
    assert Merged(resolvers, occurrences, 1) == AnswerOf(resolvers, occurrences, Profile);
    assert Merged(resolvers, occurrences, 2) ==
      Merged(resolvers, occurrences, 1) + AnswerOf(resolvers, occurrences, Content);
    assert Merged(resolvers, occurrences, 3) ==
      Merged(resolvers, occurrences, 2) + AnswerOf(resolvers, occurrences, ForSale);
  }

  /** MAIN: on success nothing depends on what the other types' messages are: a message's projection is the
      same in every batch that agrees on the messages of its type. */
  lemma {:induction false} PartsAreIndependent(resolvers: Resolvers, validate: Validator,
                                               one: map<MessageId, Option<Occurrence>>,
                                               other: map<MessageId, Option<Occurrence>>, kind: ResourceType,
                                               m: MessageId)
    requires WellFormed(one) && WellFormed(other) && Part(one, kind) == Part(other, kind) && m in Part(one, kind)
    requires forall k :: Answered(resolvers, validate, one, k) && Answered(resolvers, validate, other, k)
    ensures m in Merged(resolvers, one, |KINDS|) && m in Merged(resolvers, other, |KINDS|)
    ensures Merged(resolvers, one, |KINDS|)[m] == Merged(resolvers, other, |KINDS|)[m]
  {
    hide Merged, Matches;
    SuccessIsFaithful(resolvers, validate, one);
    SuccessIsFaithful(resolvers, validate, other);
    assert m in one && m in other && m in Part(other, kind);
    assert TypeOf(one[m].value) == Some(kind) == TypeOf(other[m].value);
  }

  /** The part of Validate about identity. */
  predicate Identified(p: Projection) {
    p.kind.Some? && p.id != NIL_UUID
  }

  /** The content resolver keeps its side of the contract: whatever it resolves, it resolves faithfully. */
  lemma ContentResolverIsFaithful(db: Database, viewer: UUID, sale: Access, auction: Access,
                                  expected: map<MessageId, Occurrence>, resolved: map<MessageId, Option<Projection>>)
    requires resolved.Keys == expected.Keys && forall m :: m in expected ==>
      && Resolvable(db, viewer, Some(expected[m]))
      && resolved[m] == Some(ProjectionFor(db, viewer, sale, auction, expected[m].content.value))
    ensures Faithful(Identified, expected, resolved)
  {
  }
}
