/** Shared content resolved for one viewer in a batch, proved equal to looking at each message by itself. */
module ContentProjection {
  import opened Common
  import opened Governance
  import opened Projections

  datatype ContentRow = ContentRow(author: UUID, status: string, visibility: string, hidden: bool, deleted: bool,
                                   caption: Option<string>)

  datatype UserRow = UserRow(accountStatus: string, deleted: bool, hasProfile: bool)

  /** A nullable source id column, which holds text. */
  datatype SourceRef = Absent | Malformed | Ref(id: UUID)

  datatype NestedRow = NestedRow(profile: SourceRef, content: SourceRef, forSale: SourceRef, auction: SourceRef)

  /** A row of for_sales or auctions; what the access rules read of it is left open. */
  datatype Listing = Listing(seller: UUID, facts: string)

  datatype Target = Target(kind: ResourceType, id: UUID)

  /** The tables the transaction reads; blocks holds (blocker, blocked), follows (follower, following). */
  datatype Database = Database(
    contents: map<UUID, ContentRow>, users: map<UUID, UserRow>, nested: map<UUID, NestedRow>,
    sales: map<UUID, Listing>, auctions: map<UUID, Listing>, sellers: map<UUID, string>,
    blocks: set<(UUID, UUID)>, follows: set<(UUID, UUID)>)

  /** The commerce access rules: viewer, listing, blocked, what is known of the seller. */
  type Access = (UUID, Listing, bool, Option<string>) -> bool

  // ---------- The answer for one message ----------

  /** A block in either direction, never for anonymous viewers. */
  predicate Blocked(db: Database, viewer: UUID, other: UUID) {
    viewer != NIL_UUID && other != NIL_UUID && ((viewer, other) in db.blocks || (other, viewer) in db.blocks)
  }

  predicate ActiveUser(db: Database, user: UUID) {
    user in db.users && CoarsenLifecycle(db.users[user].accountStatus, db.users[user].deleted).Active?
  }

  /** Whether the viewer may see the content, by the whole relations. */
  predicate MaySee(db: Database, viewer: UUID, row: ContentRow) {
    && row.status == "active" && !row.deleted && !row.hidden
    && ActiveUser(db, row.author)
    && (viewer == row.author || !Blocked(db, viewer, row.author))
    && (|| row.visibility == "public"
        || (row.visibility == "followers_only" &&
            (viewer == row.author || (viewer != NIL_UUID && (viewer, row.author) in db.follows)))
        || (row.visibility == "private" && viewer == row.author))
  }

  /** The author's account is there and not barred. */
  predicate AuthorInGoodStanding(db: Database, author: UUID) {
    && author in db.users && !db.users[author].deleted
    && db.users[author].accountStatus !in {"deleted", "removed", "suspended", "banned"}
  }

  /** MAIN: who sees a content that is active, neither deleted nor hidden, by an author in good standing. Its author
      sees it under any of the three visibilities; an anonymous reader if it is public; anybody else if no block
      stands between the two and it is public, or for followers only and the reader follows. Other contents nobody
      sees. */
  lemma AudienceIs(db: Database, viewer: UUID, row: ContentRow)
    ensures var shown := row.status == "active" && !row.deleted && !row.hidden && AuthorInGoodStanding(db, row.author);
      MaySee(db, viewer, row) <==>
        shown &&
        if viewer == row.author then row.visibility in {"public", "followers_only", "private"}
        else if viewer == 0 then row.visibility == "public"
        else
          (row.author == 0 || ((viewer, row.author) !in db.blocks && (row.author, viewer) !in db.blocks)) &&
          (row.visibility == "public" || (row.visibility == "followers_only" && (viewer, row.author) in db.follows))
  {
  }

  function SellerInfo(db: Database, seller: UUID): Option<string> {
    if seller != NIL_UUID && seller in db.sellers then Some(db.sellers[seller]) else None
  }

  predicate ListingVisible(db: Database, viewer: UUID, listings: map<UUID, Listing>, access: Access, id: UUID) {
    && id in listings
    && access(viewer, listings[id], viewer != listings[id].seller && Blocked(db, viewer, listings[id].seller),
              SellerInfo(db, listings[id].seller))
  }

  predicate TargetVisible(db: Database, viewer: UUID, sale: Access, auction: Access, target: Target) {
    match target.kind
    case Content => target.id in db.contents && db.contents[target.id].author != NIL_UUID
                    && MaySee(db, viewer, db.contents[target.id])
    case Profile => ProfileVisible(db, viewer, target.id)
    case ForSale => ListingVisible(db, viewer, db.sales, sale, target.id)
    case Auction => ListingVisible(db, viewer, db.auctions, auction, target.id)
  }

  predicate ProfileVisible(db: Database, viewer: UUID, user: UUID) {
    ActiveUser(db, user) && db.users[user].hasProfile && (viewer == user || !Blocked(db, viewer, user))
  }

  function References(row: NestedRow): seq<(ResourceType, SourceRef)> {
    [(Profile, row.profile), (Content, row.content), (ForSale, row.forSale), (Auction, row.auction)]
  }

  /** The row names at most one target, by a well-formed id. */
  predicate WellFormedTarget(row: NestedRow) {
    && (forall i :: 0 <= i < 4 ==> var ref := References(row)[i].1; ref.Absent? || (ref.Ref? && ref.id != NIL_UUID))
    && forall i, j :: 0 <= i < j < 4 ==> References(row)[i].1.Absent? || References(row)[j].1.Absent?
  }

  predicate Names(row: NestedRow, target: Target) {
    match target.kind
    case Profile => row.profile == Ref(target.id)
    case Content => row.content == Ref(target.id)
    case ForSale => row.forSale == Ref(target.id)
    case Auction => row.auction == Ref(target.id)
  }

  /** The content's own target, if it names one. */
  ghost function OwnTarget(db: Database, content: UUID): Option<Target> {
    if content in db.nested && exists target :: Names(db.nested[content], target)
    then var target :| Names(db.nested[content], target); Some(target)
    else None
  }

  lemma OwnTargetIs(db: Database, content: UUID, target: Target)
    requires content in db.nested && WellFormedTarget(db.nested[content]) && Names(db.nested[content], target)
    ensures OwnTarget(db, content) == Some(target)
  {
    var row := db.nested[content];
    forall other | Names(row, other) ensures other == target {
      var refs := References(row);
      assert refs[0].1 == row.profile && refs[1].1 == row.content;
      assert refs[2].1 == row.forSale && refs[3].1 == row.auction;
    }
  }

  /** MAIN: the target of a content whose row is well formed is the one source that the row sets, under its own type. */
  lemma OwnTargetIff(db: Database, content: UUID, id: UUID)
    requires content in db.nested && WellFormedTarget(db.nested[content])
    ensures var row, own := db.nested[content], OwnTarget(db, content);
      && (own == Some(Target(Profile, id)) <==> row == NestedRow(Ref(id), Absent, Absent, Absent))
      && (own == Some(Target(Content, id)) <==> row == NestedRow(Absent, Ref(id), Absent, Absent))
      && (own == Some(Target(ForSale, id)) <==> row == NestedRow(Absent, Absent, Ref(id), Absent))
      && (own == Some(Target(Auction, id)) <==> row == NestedRow(Absent, Absent, Absent, Ref(id)))
      && (own == None <==> row == NestedRow(Absent, Absent, Absent, Absent))
  {
    var row := db.nested[content];
    FourColumns(row);
    forall target | Names(row, target) ensures OwnTarget(db, content) == Some(target) {
      OwnTargetIs(db, content, target);
    }
    assert row.profile == Ref(id) ==> Names(row, Target(Profile, id));
    assert row.content == Ref(id) ==> Names(row, Target(Content, id));
    assert row.forSale == Ref(id) ==> Names(row, Target(ForSale, id));
    assert row.auction == Ref(id) ==> Names(row, Target(Auction, id));
    if row != NestedRow(Absent, Absent, Absent, Absent) {
      var target := NamedIfSet(row);
    }
  }

  /** A row is well formed exactly if it sets nothing, or one source, to an id that is not nil. */
  lemma FourColumns(row: NestedRow)
    ensures WellFormedTarget(row) <==>
      match row
      case NestedRow(Absent, Absent, Absent, Absent) => true
      case NestedRow(Ref(id), Absent, Absent, Absent) => id != 0
      case NestedRow(Absent, Ref(id), Absent, Absent) => id != 0
      case NestedRow(Absent, Absent, Ref(id), Absent) => id != 0
      case NestedRow(Absent, Absent, Absent, Ref(id)) => id != 0
      case _ => false
  {
    var refs := References(row);
    assert refs[0].1 == row.profile && refs[1].1 == row.content;
    assert refs[2].1 == row.forSale && refs[3].1 == row.auction;
  }

  lemma NamedIfSet(row: NestedRow) returns (target: Target)
    requires WellFormedTarget(row) && row != NestedRow(Absent, Absent, Absent, Absent)
    ensures Names(row, target)
  {
    FourColumns(row);
    target :=
      if row.profile.Ref? then Target(Profile, row.profile.id)
      else if row.content.Ref? then Target(Content, row.content.id)
      else if row.forSale.Ref? then Target(ForSale, row.forSale.id)
      else Target(Auction, row.auction.id);
  }

  ghost function IndicatorFor(db: Database, viewer: UUID, sale: Access, auction: Access, content: UUID)
    : Option<Indicator>
  {
    var own := OwnTarget(db, content);
    if own.Some? && TargetVisible(db, viewer, sale, auction, own.value)
    then Some(Indicator(own.value.kind, own.value.id)) else None
  }

  /** One message's projection: alive with the indicator of its own target, or a tombstone. */
  ghost function ProjectionFor(db: Database, viewer: UUID, sale: Access, auction: Access, content: UUID): Projection
    requires content in db.contents
  {
    var row := db.contents[content];
    Projection(Some(Content), content,
               if MaySee(db, viewer, row)
               then Some(Payload(row.author, row.caption, IndicatorFor(db, viewer, sale, auction, content)))
               else None)
  }

  /** What one projection shows: of a content the viewer may see, its author, its caption, and its own target if the
      viewer may see that too; of any other, that it is a content with this id. */
  lemma ProjectionShows(db: Database, viewer: UUID, sale: Access, auction: Access, content: UUID)
    requires content in db.contents
    ensures var p, row := ProjectionFor(db, viewer, sale, auction, content), db.contents[content];
      && p.kind == Some(Content) && p.id == content
      && (p.live.Some? <==> MaySee(db, viewer, row))
      && (p.live.Some? ==> p.live.value.author == row.author && p.live.value.caption == row.caption)
      && (p.live.Some? ==> forall kind, id :: p.live.value.nested == Some(Indicator(kind, id)) <==>
            var target := Target(kind, id);
            OwnTarget(db, content) == Some(target) && TargetVisible(db, viewer, sale, auction, target))
  {
    hide OwnTarget, TargetVisible, MaySee;
  }

  predicate BlockBetween(db: Database, a: UUID, b: UUID) {
    a != 0 && b != 0 && ((a, b) in db.blocks || (b, a) in db.blocks)
  }

  /** Who sees a nested target, by its type. */
  lemma TargetAudienceIs(db: Database, viewer: UUID, sale: Access, auction: Access, id: UUID)
    ensures TargetVisible(db, viewer, sale, auction, Target(Profile, id)) <==>
      AuthorInGoodStanding(db, id) && db.users[id].hasProfile && (viewer == id || !BlockBetween(db, viewer, id))
    ensures TargetVisible(db, viewer, sale, auction, Target(Content, id)) <==>
      id in db.contents && db.contents[id].author != 0 && MaySee(db, viewer, db.contents[id])
    ensures TargetVisible(db, viewer, sale, auction, Target(ForSale, id)) <==>
      id in db.sales &&
      var seller := db.sales[id].seller;
      sale(viewer, db.sales[id], viewer != seller && BlockBetween(db, viewer, seller),
           if seller != 0 && seller in db.sellers then Some(db.sellers[seller]) else None)
    ensures TargetVisible(db, viewer, sale, auction, Target(Auction, id)) <==>
      id in db.auctions &&
      var seller := db.auctions[id].seller;
      auction(viewer, db.auctions[id], viewer != seller && BlockBetween(db, viewer, seller),
              if seller != 0 && seller in db.sellers then Some(db.sellers[seller]) else None)
  {
    hide MaySee;
  }

  /** What one message needs for the batch to succeed. */
  predicate Resolvable(db: Database, viewer: UUID, occurrence: Option<Occurrence>) {
    && occurrence.Some? && TypeOf(occurrence.value) == Some(Content)
    && var content := occurrence.value.content.value;
    && content != NIL_UUID && content in db.contents
    && db.contents[content].author != NIL_UUID && db.contents[content].author in db.users
    && (MaySee(db, viewer, db.contents[content]) && content in db.nested ==> WellFormedTarget(db.nested[content]))
  }

  // ---------- The batch ----------

  /** contentCanResolveToLive */
  predicate CanResolveToLive(viewer: UUID, row: ContentRow, lifecycle: Lifecycle, blocked: set<UUID>,
                             followed: set<UUID>)
  {
    if row.status != "active" then false
    else if row.deleted || row.hidden then false
    else if lifecycle != Active then false
    else if viewer != NIL_UUID && viewer != row.author && row.author in blocked then false
    else if row.visibility == "public" then true
    else if row.visibility == "followers_only" then
      if viewer == row.author then true
      else if viewer == NIL_UUID then false
      else row.author in followed
    else if row.visibility == "private" then viewer == row.author
    else false
  }

  /** blockcheck.BlockedSet */
  function BlockedSet(db: Database, viewer: UUID, candidates: seq<UUID>): set<UUID> {
    if viewer == NIL_UUID then {}
    else set id | id in candidates && ((viewer, id) in db.blocks || (id, viewer) in db.blocks)
  }

  /** The follow query. */
  function FollowedSet(db: Database, viewer: UUID, targets: seq<UUID>): set<UUID> {
    set id | id in targets && (viewer, id) in db.follows
  }

  predicate Distinct(ids: seq<UUID>) {
    forall i, j :: 0 <= i < j < |ids| ==> ids[i] != ids[j]
  }

  /** The authors of the rows, each once; a nil author is skipped and reported. */
  method CollectAuthors(rows: map<UUID, ContentRow>) returns (authors: seq<UUID>, nilAuthor: bool)
    ensures Distinct(authors) && NIL_UUID !in authors
    ensures forall id :: id in rows ==> rows[id].author == NIL_UUID || rows[id].author in authors
    ensures forall a :: a in authors ==> exists id :: id in rows && rows[id].author == a
    ensures nilAuthor <==> exists id :: id in rows && rows[id].author == NIL_UUID
  {
    authors, nilAuthor := [], false;
    var seen: set<UUID> := {};
    var pending := rows.Keys;
    while pending != {}
      invariant pending <= rows.Keys && Distinct(authors) && NIL_UUID !in authors
      invariant forall a :: a in seen <==> a in authors
      invariant forall id :: id in rows && id !in pending ==> rows[id].author == NIL_UUID || rows[id].author in authors
      invariant forall a :: a in authors ==> exists id :: id in rows && rows[id].author == a
      invariant nilAuthor <==> exists id :: id in rows && id !in pending && rows[id].author == NIL_UUID
    {
      var id :| id in pending;
      pending := pending - {id};
      var author := rows[id].author;
      if author == NIL_UUID {
        nilAuthor := true;
      } else if author !in seen {
        authors, seen := authors + [author], seen + {author};
      }
    }
  }

  /** The row can only be seen by followers, and the viewer could be one. */
  predicate NeedsFollow(viewer: UUID, row: ContentRow) {
    row.visibility == "followers_only" && viewer != NIL_UUID && viewer != row.author
  }

  /** The authors whose followers have to be looked up, each once. */
  method CollectFollowTargets(viewer: UUID, ids: seq<UUID>, rows: map<UUID, ContentRow>) returns (targets: seq<UUID>)
    ensures Distinct(targets)
    ensures forall a :: a in targets <==>
      exists k :: 0 <= k < |ids| && ids[k] in rows && NeedsFollow(viewer, rows[ids[k]]) && rows[ids[k]].author == a
  {
    targets := [];
    for i := 0 to |ids|
      invariant Distinct(targets)
      invariant forall a :: a in targets <==>
        exists k :: 0 <= k < i && ids[k] in rows && NeedsFollow(viewer, rows[ids[k]]) && rows[ids[k]].author == a
    {
      if ids[i] in rows {
        var row := rows[ids[i]];
        if row.visibility == "followers_only" && !(viewer == NIL_UUID || viewer == row.author) {
          if row.author !in targets {
            targets := targets + [row.author];
          }
        }
      }
    }
  }

  /** MAIN: the block and follow sets, restricted to the ids the loops collect, answer for every row of the batch
      as the whole relations do. */
  method LoadRelations(db: Database, viewer: UUID, ids: seq<UUID>, rows: map<UUID, ContentRow>, authors: seq<UUID>)
    returns (blocked: set<UUID>, followed: set<UUID>)
    requires forall id :: id in rows ==> id in ids
    requires forall id :: id in rows ==> rows[id].author == NIL_UUID || rows[id].author in authors
    ensures forall id :: id in rows && rows[id].author != NIL_UUID ==> Suffice(db, viewer, rows[id], blocked, followed)
  {
    blocked := BlockedSet(db, viewer, authors);
    var targets := CollectFollowTargets(viewer, ids, rows);
    followed := FollowedSet(db, viewer, targets);
    forall id | id in rows && rows[id].author != NIL_UUID ensures Suffice(db, viewer, rows[id], blocked, followed) {
      var k :| 0 <= k < |ids| && ids[k] == id;
    }
  }

  /** As far as this row is concerned the two sets say what the whole relations say. */
  predicate Suffice(db: Database, viewer: UUID, row: ContentRow, blocked: set<UUID>, followed: set<UUID>) {
    && (viewer != NIL_UUID ==> (row.author in blocked <==> Blocked(db, viewer, row.author)))
    && (NeedsFollow(viewer, row) ==> (row.author in followed <==> (viewer, row.author) in db.follows))
  }

  /** With two sets that say so much about the row's author, the check gives for every content the
      answer of the whole relations. */
  lemma RestrictedSetsSuffice(db: Database, viewer: UUID, row: ContentRow, blocked: set<UUID>, followed: set<UUID>)
    requires row.author in db.users && Suffice(db, viewer, row, blocked, followed)
    ensures
      var lifecycle := CoarsenLifecycle(db.users[row.author].accountStatus, db.users[row.author].deleted);
      CanResolveToLive(viewer, row, lifecycle, blocked, followed) <==> MaySee(db, viewer, row)
  {
  }

  /** nestedTarget: the four columns in turn, each refused if malformed or not the first. */
  method NestedTarget(row: NestedRow) returns (r: Result<Option<Target>>)
    ensures r.Ok? <==> WellFormedTarget(row)
    ensures r.Ok? && r.value.Some? ==> Names(row, r.value.value)
    ensures r == Ok(None) ==> forall target :: !Names(row, target)
  {
    var refs := References(row);
    assert refs[0] == (Profile, row.profile) && refs[1] == (Content, row.content);
    assert refs[2] == (ForSale, row.forSale) && refs[3] == (Auction, row.auction);
    var found: Option<Target> := None;
    for i := 0 to 4
      invariant forall k :: 0 <= k < i ==> refs[k].1.Absent? || (refs[k].1.Ref? && refs[k].1.id != NIL_UUID)
      invariant forall j, k :: 0 <= j < k < i ==> refs[j].1.Absent? || refs[k].1.Absent?
      invariant found.None? ==> forall k :: 0 <= k < i ==> refs[k].1.Absent?
      invariant found.Some? ==> exists k :: 0 <= k < i && refs[k] == (found.value.kind, Ref(found.value.id))
    {
      match refs[i].1 {
        case Absent =>
        case Malformed =>
          return Err("invalid content occurrence target id");
        case Ref(id) =>
          if id == NIL_UUID {
            return Err("invalid content occurrence target id");
          }
          if found.Some? {
            return Err("content occurrence row has multiple source ids");
          }
          found := Some(Target(refs[i].0, id));
      }
    }
    return Ok(found);
  }

  // ---------- Nested targets: group, invert, fan out ----------

  /** From a target id to the contents that point at it. */
  type Groups = map<UUID, seq<UUID>>

  ghost predicate Inverts(groups: Groups, targets: map<UUID, Target>, sources: set<UUID>, kind: ResourceType) {
    && (forall id, source :: id in groups && source in groups[id] ==> source in sources)
    && (forall id :: id in groups ==> Distinct(groups[id]) && groups[id] != [])
    && forall source :: source in sources && source in targets ==>
         forall id :: (id in groups && source in groups[id]) <==> targets[source] == Target(kind, id)
  }

  function Added(groups: Groups, id: UUID, source: UUID): Groups {
    groups[id := (if id in groups then groups[id] else []) + [source]]
  }

  lemma AddedInverts(groups: Groups, targets: map<UUID, Target>, sources: set<UUID>, kind: ResourceType, source: UUID)
    requires sources <= targets.Keys && Inverts(groups, targets, sources, kind)
    requires source in targets && source !in sources
    ensures targets[source].kind == kind ==>
      Inverts(Added(groups, targets[source].id, source), targets, sources + {source}, kind)
    ensures targets[source].kind != kind ==> Inverts(groups, targets, sources + {source}, kind)
  {
    if targets[source].kind == kind {
      var id := targets[source].id;
      var old' := if id in groups then groups[id] else [];
      assert source !in old';
      assert forall s :: s in old' + [source] <==> s in old' || s == source;
    }
  }

  /** The switch over the target types. */
  method GroupTargets(targets: map<UUID, Target>)
    returns (contents: Groups, profiles: Groups, sales: Groups, auctions: Groups)
    ensures Inverts(contents, targets, targets.Keys, Content) && Inverts(profiles, targets, targets.Keys, Profile)
    ensures Inverts(sales, targets, targets.Keys, ForSale) && Inverts(auctions, targets, targets.Keys, Auction)
  {
    hide Inverts, Added;
    contents, profiles, sales, auctions := map[], map[], map[], map[];
    var pending := targets.Keys;
    assert targets.Keys - pending == {};
    NothingInverts(targets);
    while pending != {}
      invariant pending <= targets.Keys
      invariant Inverts(contents, targets, targets.Keys - pending, Content)
      invariant Inverts(profiles, targets, targets.Keys - pending, Profile)
      invariant Inverts(sales, targets, targets.Keys - pending, ForSale)
      invariant Inverts(auctions, targets, targets.Keys - pending, Auction)
    {
      var source :| source in pending;
      AddedInverts(contents, targets, targets.Keys - pending, Content, source);
      AddedInverts(profiles, targets, targets.Keys - pending, Profile, source);
      AddedInverts(sales, targets, targets.Keys - pending, ForSale, source);
      AddedInverts(auctions, targets, targets.Keys - pending, Auction, source);
      assert targets.Keys - (pending - {source}) == targets.Keys - pending + {source};
      pending := pending - {source};
      match targets[source].kind
      case Content => contents := Added(contents, targets[source].id, source);
      case Profile => profiles := Added(profiles, targets[source].id, source);
      case ForSale => sales := Added(sales, targets[source].id, source);
      case Auction => auctions := Added(auctions, targets[source].id, source);
    }
    assert targets.Keys - pending == targets.Keys;
  }

  lemma NothingInverts(targets: map<UUID, Target>)
    ensures forall kind :: Inverts(map[], targets, {}, kind)
  {
  }

  /** An indicator for every source of every visible target. */
  method FanOut(groups: Groups, kind: ResourceType, visible: set<UUID>, ghost targets: map<UUID, Target>)
    returns (result: map<UUID, Indicator>)
    requires Inverts(groups, targets, targets.Keys, kind)
    ensures forall s :: s in result <==> s in targets && targets[s].kind == kind && targets[s].id in visible
    ensures forall s :: s in result ==> result[s] == Indicator(kind, targets[s].id)
  {
    result := map[];
    var pending := groups.Keys;
    while pending != {}
      invariant pending <= groups.Keys
      invariant forall s :: s in result <==>
        s in targets && targets[s].kind == kind && targets[s].id in visible && targets[s].id !in pending
      invariant forall s :: s in result ==> result[s] == Indicator(kind, targets[s].id)
    {
      var id :| id in pending;
      pending := pending - {id};
      if id in visible {
        ghost var before := result;
        for i := 0 to |groups[id]|
          invariant forall s :: s in result <==> s in before || s in groups[id][..i]
          invariant forall s :: s in result ==> result[s] == Indicator(kind, targets[s].id)
        {
          assert groups[id][i] in groups[id];
          result := result[groups[id][i] := Indicator(kind, id)];
        }
        assert groups[id][..|groups[id]|] == groups[id];
      }
    }
  }

  /** The indicators of one kind are those of the visible targets of that kind. */
  ghost predicate Answers(result: map<UUID, Indicator>, kind: ResourceType, targets: map<UUID, Target>, db: Database,
                          viewer: UUID, sale: Access, auction: Access)
  {
    && (forall s :: s in result <==>
          s in targets && targets[s].kind == kind && TargetVisible(db, viewer, sale, auction, targets[s]))
    && forall s :: s in result ==> result[s] == Indicator(kind, targets[s].id)
  }

  method ListOf(ids: set<UUID>) returns (list: seq<UUID>)
    ensures forall id :: id in list <==> id in ids
  {
    list := [];
    var pending := ids;
    while pending != {}
      invariant pending <= ids && forall id :: id in list <==> id in ids && id !in pending
    {
      var id :| id in pending;
      pending, list := pending - {id}, list + [id];
    }
  }

  method ResolveNestedContents(db: Database, viewer: UUID, groups: Groups, ghost targets: map<UUID, Target>,
                               ghost sale: Access, ghost auction: Access)
    returns (result: map<UUID, Indicator>)
    requires Inverts(groups, targets, targets.Keys, Content)
    ensures Answers(result, Content, targets, db, viewer, sale, auction)
  {
    var ids := ListOf(groups.Keys);
    var rows := map id | id in ids && id in db.contents :: db.contents[id];
    var authors, _ := CollectAuthors(rows);
    var authorRows := map a | a in authors && a in db.users :: db.users[a];
    var blocked, followed := LoadRelations(db, viewer, ids, rows, authors);
    var visible := set id | id in rows && rows[id].author in authorRows &&
      CanResolveToLive(viewer, rows[id],
                       CoarsenLifecycle(authorRows[rows[id].author].accountStatus, authorRows[rows[id].author].deleted),
                       blocked, followed);
    result := FanOut(groups, Content, visible, targets);
    forall id | id in groups ensures id in visible <==> TargetVisible(db, viewer, sale, auction, Target(Content, id)) {
      if id in db.contents && db.contents[id].author != NIL_UUID && db.contents[id].author in db.users {
        RestrictedSetsSuffice(db, viewer, rows[id], blocked, followed);
      }
    }
    VisibleAnswers(result, groups, Content, visible, targets, db, viewer, sale, auction);
  }

  lemma VisibleAnswers(result: map<UUID, Indicator>, groups: Groups, kind: ResourceType, visible: set<UUID>,
                       targets: map<UUID, Target>, db: Database, viewer: UUID, sale: Access, auction: Access)
    requires Inverts(groups, targets, targets.Keys, kind)
    requires forall s :: s in result <==> s in targets && targets[s].kind == kind && targets[s].id in visible
    requires forall s :: s in result ==> result[s] == Indicator(kind, targets[s].id)
    requires forall id :: id in groups ==>
      (id in visible <==> TargetVisible(db, viewer, sale, auction, Target(kind, id)))
    ensures Answers(result, kind, targets, db, viewer, sale, auction)
  {
    hide TargetVisible;
    forall s | s in targets && targets[s].kind == kind
      ensures targets[s].id in visible <==> TargetVisible(db, viewer, sale, auction, targets[s])
    {
      assert targets[s] == Target(kind, targets[s].id);
      assert targets[s].id in groups && s in groups[targets[s].id];
    }
  }

  method ResolveNestedProfiles(db: Database, viewer: UUID, groups: Groups, ghost targets: map<UUID, Target>,
                               ghost sale: Access, ghost auction: Access)
    returns (result: map<UUID, Indicator>)
    requires Inverts(groups, targets, targets.Keys, Profile) && NIL_UUID !in groups
    ensures Answers(result, Profile, targets, db, viewer, sale, auction)
  {
    var ids := ListOf(groups.Keys);
    var rows := map id | id in ids && id in db.users && db.users[id].hasProfile :: db.users[id];
    var blocked := BlockedSet(db, viewer, ids);
    var visible := set id | id in rows && CoarsenLifecycle(rows[id].accountStatus, rows[id].deleted) == Active &&
      !(viewer != NIL_UUID && viewer != id && id in blocked);
    result := FanOut(groups, Profile, visible, targets);
    VisibleAnswers(result, groups, Profile, visible, targets, db, viewer, sale, auction);
  }

  /** The sellers of the listings, each once; a nil seller is skipped. */
  method CollectSellers(rows: map<UUID, Listing>) returns (sellers: seq<UUID>)
    ensures Distinct(sellers) && NIL_UUID !in sellers
    ensures forall id :: id in rows ==> rows[id].seller == NIL_UUID || rows[id].seller in sellers
  {
    sellers := [];
    var pending := rows.Keys;
    while pending != {}
      invariant pending <= rows.Keys && Distinct(sellers) && NIL_UUID !in sellers
      invariant forall id :: id in rows && id !in pending ==> rows[id].seller == NIL_UUID || rows[id].seller in sellers
    {
      var id :| id in pending;
      pending := pending - {id};
      if rows[id].seller != NIL_UUID && rows[id].seller !in sellers {
        sellers := sellers + [rows[id].seller];
      }
    }
  }

  /** The two listing resolvers differ in their table and their access rule only. */
  method VisibleListings(db: Database, viewer: UUID, groups: Groups, listings: map<UUID, Listing>, access: Access)
    returns (visible: set<UUID>)
    ensures forall id :: id in groups ==> (id in visible <==> ListingVisible(db, viewer, listings, access, id))
  {
    var ids := ListOf(groups.Keys);
    var rows := map id | id in ids && id in listings :: listings[id];
    var sellers := CollectSellers(rows);
    var blocked := BlockedSet(db, viewer, sellers);
    var infos := map x | x in sellers && x in db.sellers :: db.sellers[x];
    visible := set id | id in rows &&
      access(viewer, rows[id], viewer != NIL_UUID && viewer != rows[id].seller && rows[id].seller in blocked,
             if rows[id].seller in infos then Some(infos[rows[id].seller]) else None);
    forall id | id in groups && id in listings
      ensures id in visible <==> ListingVisible(db, viewer, listings, access, id)
    {
      var seller := listings[id].seller;
      assert id in rows;
      assert (viewer != NIL_UUID && viewer != seller && seller in blocked) <==>
        (viewer != seller && Blocked(db, viewer, seller));
    }
  }

  method ResolveNestedForSales(db: Database, viewer: UUID, groups: Groups, ghost targets: map<UUID, Target>,
                               sale: Access, ghost auction: Access)
    returns (result: map<UUID, Indicator>)
    requires Inverts(groups, targets, targets.Keys, ForSale)
    ensures Answers(result, ForSale, targets, db, viewer, sale, auction)
  {
    var visible := VisibleListings(db, viewer, groups, db.sales, sale);
    result := FanOut(groups, ForSale, visible, targets);
    VisibleAnswers(result, groups, ForSale, visible, targets, db, viewer, sale, auction);
  }

  method ResolveNestedAuctions(db: Database, viewer: UUID, groups: Groups, ghost targets: map<UUID, Target>,
                               ghost sale: Access, auction: Access)
    returns (result: map<UUID, Indicator>)
    requires Inverts(groups, targets, targets.Keys, Auction)
    ensures Answers(result, Auction, targets, db, viewer, sale, auction)
  {
    var visible := VisibleListings(db, viewer, groups, db.auctions, auction);
    result := FanOut(groups, Auction, visible, targets);
    VisibleAnswers(result, groups, Auction, visible, targets, db, viewer, sale, auction);
  }

  /** MAIN (resolveNestedResourceIndicators): grouping the targets by type, inverting them, resolving each
      distinct target once and fanning out again gives a content an indicator if and only if its own target is
      visible, and the indicator names that target. */
  method ResolveNested(db: Database, viewer: UUID, sale: Access, auction: Access, targets: map<UUID, Target>)
    returns (result: map<UUID, Indicator>)
    requires forall s :: s in targets ==> targets[s].id != NIL_UUID
    ensures forall s :: s in result <==> s in targets && TargetVisible(db, viewer, sale, auction, targets[s])
    ensures forall s :: s in result ==> result[s] == Indicator(targets[s].kind, targets[s].id)
  {
    hide TargetVisible;
    var contents, profiles, sales, auctions := GroupTargets(targets);
    NoNilGroup(profiles, targets, Profile);
    var byContent := ResolveNestedContents(db, viewer, contents, targets, sale, auction);
    var byProfile := ResolveNestedProfiles(db, viewer, profiles, targets, sale, auction);
    var bySale := ResolveNestedForSales(db, viewer, sales, targets, sale, auction);
    var byAuction := ResolveNestedAuctions(db, viewer, auctions, targets, sale, auction);
    result := byContent + byProfile + bySale + byAuction;
    hide Inverts;
  }

  lemma NoNilGroup(groups: Groups, targets: map<UUID, Target>, kind: ResourceType)
    requires Inverts(groups, targets, targets.Keys, kind)
    requires forall s :: s in targets ==> targets[s].id != NIL_UUID
    ensures NIL_UUID !in groups
  {
    forall id | id in groups ensures id != NIL_UUID {
      var s := groups[id][0];
      assert s in groups[id] && s in targets;
      assert targets[s] == Target(kind, id);
    }
  }

  // ---------- The whole batch ----------

  /** The messages' contents, each once; Err if a message is malformed. */
  method CollectContents(occurrences: map<MessageId, Option<Occurrence>>) returns (r: Result<seq<UUID>>)
    ensures r.Ok? <==> forall m :: m in occurrences ==>
      occurrences[m].Some? && TypeOf(occurrences[m].value) == Some(Content)
    ensures r.Ok? ==> Distinct(r.value) && forall id :: id in r.value <==>
      exists m :: m in occurrences && occurrences[m].value.content.value == id
  {
    var ids: seq<UUID> := [];
    var pending := occurrences.Keys;
    while pending != {}
      invariant pending <= occurrences.Keys && Distinct(ids)
      invariant forall m :: m in occurrences && m !in pending ==>
        occurrences[m].Some? && TypeOf(occurrences[m].value) == Some(Content)
      invariant forall id :: id in ids <==>
        exists m :: m in occurrences && m !in pending && occurrences[m].value.content.value == id
    {
      var m :| m in pending;
      pending := pending - {m};
      if occurrences[m].None? {
        return Err("nil occurrence");
      }
      var occurrence := occurrences[m].value;
      if TypeOf(occurrence).None? {
        return Err("malformed occurrence identity");
      }
      if TypeOf(occurrence) != Some(Content) {
        return Err("unsupported resource type");
      }
      var id := occurrence.content.value;
      if id !in ids {
        ids := ids + [id];
      }
    }
    return Ok(ids);
  }

  /** The first pass: the targets of the contents the viewer may see; Err if one of them is malformed. */
  method CollectTargets(db: Database, viewer: UUID, ids: set<UUID>, rows: map<UUID, ContentRow>, blocked: set<UUID>,
                        followed: set<UUID>)
    returns (r: Result<map<UUID, Target>>)
    requires Loaded(db, viewer, ids, rows, blocked, followed)
    ensures r.Ok? <==> forall id :: id in ids && MaySee(db, viewer, rows[id]) && id in db.nested ==>
      WellFormedTarget(db.nested[id])
    ensures r.Ok? ==> forall id :: id in r.value <==>
      id in ids && MaySee(db, viewer, rows[id]) && OwnTarget(db, id).Some?
    ensures r.Ok? ==> forall id :: id in r.value ==>
      Some(r.value[id]) == OwnTarget(db, id) && r.value[id].id != NIL_UUID
  {
    hide MaySee, CanResolveToLive, WellFormedTarget;
    var targets: map<UUID, Target> := map[];
    var pending := ids;
    while pending != {}
      invariant pending <= ids
      invariant forall id :: id in ids && id !in pending && MaySee(db, viewer, rows[id]) && id in db.nested ==>
        WellFormedTarget(db.nested[id])
      invariant forall id :: id in targets <==>
        id in ids && id !in pending && MaySee(db, viewer, rows[id]) && OwnTarget(db, id).Some?
      invariant forall id :: id in targets ==> Some(targets[id]) == OwnTarget(db, id) && targets[id].id != NIL_UUID
    {
      var id :| id in pending;
      pending := pending - {id};
      var user := db.users[rows[id].author];
      RestrictedSetsSuffice(db, viewer, rows[id], blocked, followed);
      if CanResolveToLive(viewer, rows[id], CoarsenLifecycle(user.accountStatus, user.deleted), blocked, followed) &&
         id in db.nested {
        var target := NestedTarget(db.nested[id]);
        if target.Err? {
          return Err(target.message);
        }
        if target.value.Some? {
          OwnTargetIs(db, id, target.value.value);
          NamedIds(db.nested[id], target.value.value);
          targets := targets[id := target.value.value];
        }
      }
    }
    return Ok(targets);
  }

  lemma NamedIds(row: NestedRow, target: Target)
    requires WellFormedTarget(row) && Names(row, target)
    ensures target.id != NIL_UUID
  {
    var refs := References(row);
    assert refs[0].1 == row.profile && refs[1].1 == row.content && refs[2].1 == row.forSale && refs[3].1 == row.auction;
  }

  /** The rows of all the contents are there, with their authors, and the two sets suffice. */
  predicate Loaded(db: Database, viewer: UUID, ids: set<UUID>, rows: map<UUID, ContentRow>, blocked: set<UUID>,
                   followed: set<UUID>)
  {
    forall id :: id in ids ==>
      && id in rows && id in db.contents && rows[id] == db.contents[id]
      && rows[id].author != NIL_UUID && rows[id].author in db.users
      && Suffice(db, viewer, rows[id], blocked, followed)
  }

  /** The second pass. */
  method BuildProjections(db: Database, viewer: UUID, ghost sale: Access, ghost auction: Access,
                          occurrences: map<MessageId, UUID>, rows: map<UUID, ContentRow>, blocked: set<UUID>,
                          followed: set<UUID>, indicators: map<UUID, Indicator>)
    returns (r: Result<map<MessageId, Projection>>)
    requires Loaded(db, viewer, occurrences.Values, rows, blocked, followed)
    requires forall id :: id in occurrences.Values && MaySee(db, viewer, rows[id]) ==>
      IndicatorFor(db, viewer, sale, auction, id) == if id in indicators then Some(indicators[id]) else None
    ensures r.Ok? <==> forall m :: m in occurrences ==> occurrences[m] != NIL_UUID
    ensures r.Ok? ==> r.value.Keys == occurrences.Keys
    ensures r.Ok? ==> forall m :: m in occurrences ==>
      occurrences[m] in db.contents && r.value[m] == ProjectionFor(db, viewer, sale, auction, occurrences[m])
  {
    hide MaySee, CanResolveToLive, IndicatorFor;
    var result: map<MessageId, Projection> := map[];
    var pending := occurrences.Keys;
    while pending != {}
      invariant pending <= occurrences.Keys && result.Keys == occurrences.Keys - pending
      invariant forall m :: m in occurrences && m !in pending ==>
        && occurrences[m] != NIL_UUID && occurrences[m] in db.contents
        && result[m] == ProjectionFor(db, viewer, sale, auction, occurrences[m])
    {
      var m :| m in pending;
      pending := pending - {m};
      var id := occurrences[m];
      assert id in occurrences.Values;
      var row := rows[id];
      var user := db.users[row.author];
      RestrictedSetsSuffice(db, viewer, row, blocked, followed);
      if id == NIL_UUID {
        return Err("projection requires resource id");
      }
      if !CanResolveToLive(viewer, row, CoarsenLifecycle(user.accountStatus, user.deleted), blocked, followed) {
        result := result[m := Projection(Some(Content), id, None)];
      } else {
        var nested := if id in indicators then Some(indicators[id]) else None;
        result := result[m := Projection(Some(Content), id, Some(Payload(row.author, row.caption, nested)))];
      }
    }
    return Ok(result);
  }

  /** The message names a content that exists, by an author who exists. */
  predicate Readable(db: Database, occurrence: Option<Occurrence>) {
    && occurrence.Some? && TypeOf(occurrence.value) == Some(Content)
    && var content := occurrence.value.content.value;
    && content in db.contents && db.contents[content].author != NIL_UUID && db.contents[content].author in db.users
  }

  datatype Batch = Batch(byMessage: map<MessageId, UUID>, rows: map<UUID, ContentRow>, blocked: set<UUID>,
                         followed: set<UUID>)

  /** The rows of the contents, each with its author; Err if one is missing. */
  method LoadRows(db: Database, ids: seq<UUID>) returns (r: Result<(map<UUID, ContentRow>, seq<UUID>)>)
    ensures r.Ok? <==> forall id :: id in ids ==>
      id in db.contents && db.contents[id].author != NIL_UUID && db.contents[id].author in db.users
    ensures r.Ok? ==>
      && (forall id :: id in r.value.0 <==> id in ids)
      && (forall id :: id in ids ==> r.value.0[id] == db.contents[id] && r.value.0[id].author in r.value.1)
  {
    var rows := map id | id in ids && id in db.contents :: db.contents[id];
    var authors, nilAuthor := CollectAuthors(rows);
    if nilAuthor {
      ghost var id :| id in rows && rows[id].author == NIL_UUID;
      assert id in ids;
      return Err("content source row missing author id");
    }
    if exists id :: id in ids && id !in db.contents {
      return Err("content source row missing");
    }
    if exists a :: a in authors && a !in db.users {
      ghost var a :| a in authors && a !in db.users;
      ghost var id :| id in rows && rows[id].author == a;
      assert id in ids;
      return Err("content author row missing");
    }
    assert forall id :: id in ids ==> id in rows;
    return Ok((rows, authors));
  }

  /** Everything up to the first pass. */
  method LoadBatch(db: Database, viewer: UUID, occurrences: map<MessageId, Option<Occurrence>>)
    returns (r: Result<Batch>)
    ensures r.Ok? <==> forall m :: m in occurrences ==> Readable(db, occurrences[m])
    ensures r.Ok? ==>
      && r.value.byMessage.Keys == occurrences.Keys
      && (forall m :: m in occurrences ==> r.value.byMessage[m] == occurrences[m].value.content.value)
      && Loaded(db, viewer, r.value.byMessage.Values, r.value.rows, r.value.blocked, r.value.followed)
  {
    hide Suffice, TypeOf;
    var ids := CollectContents(occurrences);
    if ids.Err? {
      return Err(ids.message);
    }
    forall m | m in occurrences ensures occurrences[m].value.content.Some? {
      ContentIsSet(occurrences[m].value);
    }
    var loaded := LoadRows(db, ids.value);
    if loaded.Err? {
      ghost var id :| id in ids.value &&
        !(id in db.contents && db.contents[id].author != NIL_UUID && db.contents[id].author in db.users);
      ghost var m :| m in occurrences && occurrences[m].value.content.value == id;
      assert !Readable(db, occurrences[m]);
      return Err(loaded.message);
    }
    var rows, authors := loaded.value.0, loaded.value.1;
    var blocked, followed := LoadRelations(db, viewer, ids.value, rows, authors);
    var byMessage := map m | m in occurrences :: occurrences[m].value.content.value;
    assert forall id :: id in byMessage.Values ==> id in ids.value;
    return Ok(Batch(byMessage, rows, blocked, followed));
  }

  lemma ContentIsSet(o: Occurrence)
    requires TypeOf(o) == Some(Content)
    ensures o.content.Some?
  {
  }

  /** MAIN: resolving a batch of shared contents, with ids deduplicated, relations restricted to the authors at
      hand and nested targets resolved once each, succeeds if and only if every message is resolvable by itself,
      and then gives every message the projection it would have by itself. */
  method ResolveContents(db: Database, viewer: UUID, sale: Access, auction: Access,
                         occurrences: map<MessageId, Option<Occurrence>>)
    returns (r: Result<map<MessageId, Projection>>)
    ensures r.Ok? <==> forall m :: m in occurrences ==> Resolvable(db, viewer, occurrences[m])
    ensures r.Ok? ==> r.value.Keys == occurrences.Keys
    ensures r.Ok? ==> forall m :: m in occurrences ==>
      r.value[m] == ProjectionFor(db, viewer, sale, auction, occurrences[m].value.content.value)
  {
    hide MaySee, CanResolveToLive, IndicatorFor, OwnTarget, TargetVisible, WellFormedTarget, Suffice, ProjectionFor,
      Readable;
    ResolvableIs(db, viewer, occurrences);
    var loaded := LoadBatch(db, viewer, occurrences);
    if loaded.Err? {
      return Err(loaded.message);
    }
    var Batch(byMessage, rows, blocked, followed) := loaded.value;
    assert forall m :: m in byMessage ==> byMessage[m] in byMessage.Values;
    var targets := CollectTargets(db, viewer, byMessage.Values, rows, blocked, followed);
    if targets.Err? {
      return Err(targets.message);
    }
    var indicators := ResolveNested(db, viewer, sale, auction, targets.value);
    forall id | id in byMessage.Values && MaySee(db, viewer, rows[id])
      ensures IndicatorFor(db, viewer, sale, auction, id) == if id in indicators then Some(indicators[id]) else None
    {
      IndicatorIs(db, viewer, sale, auction, id);
    }
    r := BuildProjections(db, viewer, sale, auction, byMessage, rows, blocked, followed, indicators);
  }

  lemma ResolvableIs(db: Database, viewer: UUID, occurrences: map<MessageId, Option<Occurrence>>)
    ensures forall m :: m in occurrences && Resolvable(db, viewer, occurrences[m]) ==> Readable(db, occurrences[m])
    ensures forall m :: m in occurrences && Readable(db, occurrences[m]) ==>
      var id := occurrences[m].value.content.value;
      && id in db.contents
      && (Resolvable(db, viewer, occurrences[m]) <==>
            id != NIL_UUID &&
            (MaySee(db, viewer, db.contents[id]) && id in db.nested ==> WellFormedTarget(db.nested[id])))
  {
    hide MaySee, WellFormedTarget;
  }

  lemma IndicatorIs(db: Database, viewer: UUID, sale: Access, auction: Access, id: UUID)
    ensures var own := OwnTarget(db, id);
      IndicatorFor(db, viewer, sale, auction, id) ==
        if own.Some? && TargetVisible(db, viewer, sale, auction, own.value)
        then Some(Indicator(own.value.kind, own.value.id)) else None
  {
  }
}
