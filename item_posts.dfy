/** ItemPostService as functions over the item_posts table: lookups with their
    two kinds of error, creation for a registered e-mail with status ACTIVE, the
    stream filters, deletion and the field-selective update. */
module ItemPosts {
  import opened Outcomes
  import opened Text
  import opened Errors
  import opened Enums
  import opened Seqs
  import opened Accounts

  /** ItemPostStatusEnum. */
  datatype ItemPostStatus = Active | Inactive | Donated

  /** ItemPost. The text fields a command may leave null are options. */
  datatype ItemPost = ItemPost(
    id: int,
    email: string,
    title: Option<string>,
    address: Option<string>,
    description: Option<string>,
    category: Option<Category>,
    itemPostImageUrl: Option<string>,
    condition: Option<Condition>,
    status: ItemPostStatus)

  datatype CreateItemPostCommand = CreateItemPostCommand(
    email: string,
    title: Option<string>,
    address: Option<string>,
    description: Option<string>,
    condition: Option<Condition>,
    itemPostUrl: Option<string>,
    category: Option<Category>)

  datatype CreateItemPostResponse = CreateItemPostResponse(
    email: string,
    title: Option<string>,
    description: Option<string>,
    address: Option<string>,
    itemPostImageUrl: Option<string>,
    condition: Option<Condition>,
    category: Option<Category>)

  datatype FetchItemPostResponse = FetchItemPostResponse(
    id: int,
    email: string,
    title: Option<string>,
    description: Option<string>,
    address: Option<string>,
    itemPostImageUrl: Option<string>,
    condition: Option<Condition>,
    category: Option<Category>)

  /** The fields of an UpdateItemPostCommand. */
  datatype UpdateFields = UpdateFields(
    id: Option<int>,
    title: Option<string>,
    description: Option<string>,
    address: Option<string>,
    category: Option<Category>,
    condition: Option<Condition>)

  /** The item_posts table in insertion order, and the IDENTITY generator. */
  datatype PostTable = PostTable(rows: seq<ItemPost>, nextId: int)

  /** The result of an operation and the table after it. */
  datatype PostStep<T> = PostStep(result: Result<T, Exception>, table: PostTable)

  /** Ids are unique and all below the next one to be generated. */
  predicate Valid(t: PostTable) {
    && (forall i, j :: 0 <= i < j < |t.rows| ==> t.rows[i].id != t.rows[j].id)
    && (forall i :: 0 <= i < |t.rows| ==> t.rows[i].id < t.nextId)
  }

  /** The position of the row with this id. */
  function IndexOf(rows: seq<ItemPost>, id: int): (r: Option<nat>)
    ensures r.Some? ==> r.value < |rows| && rows[r.value].id == id
    ensures r.None? ==> forall i :: 0 <= i < |rows| ==> rows[i].id != id
    decreases |rows|
  {
    if rows == [] then None
    else if rows[0].id == id then Some(0)
    else match IndexOf(rows[1..], id)
      case None => None
      case Some(i) => Some(i + 1)
  }

  /** findById. */
  function FindById(t: PostTable, id: int): Option<ItemPost> {
    match IndexOf(t.rows, id)
    case None => None
    case Some(i) => Some(t.rows[i])
  }

  /** existsById. */
  predicate ExistsById(t: PostTable, id: int) {
    IndexOf(t.rows, id).Some?
  }

  /** In a valid table the row with an id is the only one. */
  lemma FindByIdUnique(t: PostTable, id: int, i: nat)
    requires Valid(t) && i < |t.rows| && t.rows[i].id == id
    ensures IndexOf(t.rows, id) == Some(i)
    ensures FindById(t, id) == Some(t.rows[i])
  {
  }

  /** The two errors of getItemById; neither code nor message is swapped here. */
  function InvalidItemId(id: int): Exception {
    Business(BusinessException("ERR_400", "Invalid item id: " + LongToString(id), BadRequest))
  }

  function ItemNotFound(id: int): Exception {
    Business(BusinessException("ERR_404", "Item with ID: " + LongToString(id) + " not found", NotFound))
  }

  /** getItemById: a negative id is refused before the lookup. */
  function GetItemById(t: PostTable, id: int): Result<ItemPost, Exception> {
    if id < 0 then Failure(InvalidItemId(id))
    else match FindById(t, id)
      case None => Failure(ItemNotFound(id))
      case Some(post) => Success(post)
  }

  /** getItemById fails with ERR_400 exactly for negative ids, with ERR_404 for a
      non-negative id no row has, and otherwise returns the row with that id;
      id 0 passes the sign check. */
  lemma GetItemByIdOutcomes(t: PostTable, id: int)
    ensures GetItemById(t, id) == Failure(InvalidItemId(id)) <==> id < 0
    ensures id >= 0 && !ExistsById(t, id) ==> GetItemById(t, id) == Failure(ItemNotFound(id))
    ensures GetItemById(t, id).Success? <==> id >= 0 && ExistsById(t, id)
    ensures GetItemById(t, id).Success? ==> GetItemById(t, id).value in t.rows && GetItemById(t, id).value.id == id
  {
    if id >= 0 {
      assert InvalidItemId(id).business.errorCode != ItemNotFound(id).business.errorCode;
    }
  }

  /** The user check of createItem; unlike UserException.userNotFound, the code
      and the message are in their own slots. */
  function UserWithEmailNotFound(email: string): Exception {
    Business(BusinessException("USER_NOT_FOUND", "User with email " + email + " not found", NotFound))
  }

  /** The same missing user reported by ItemPostService and by UserService: the
      same code, message and status, with code and message exchanged in the latter. */
  lemma UserNotFoundTwoWays(email: string)
    ensures UserWithEmailNotFound(email).business.errorCode == UserException(UserNotFound(email)).errorMessage
    ensures UserWithEmailNotFound(email).business.errorMessage == UserException(UserNotFound(email)).errorCode
    ensures UserWithEmailNotFound(email).business.statusCode == UserException(UserNotFound(email)).statusCode
    ensures UserWithEmailNotFound(email).business != UserException(UserNotFound(email))
  {
    UserNotFoundByEmailContents(email);
    assert UserWithEmailNotFound(email).business.errorCode[0] == 'U';
    assert UserException(UserNotFound(email)).errorCode[0] == 'U';
    assert |"USER_NOT_FOUND"| != |"User with email " + email + " not found"|;
  }

  /** toEntity: the command's fields, status ACTIVE by default, the generated id. */
  function ToEntity(command: CreateItemPostCommand, id: int): ItemPost {
    ItemPost(id, command.email, command.title, command.address, command.description, command.category,
             command.itemPostUrl, command.condition, Active)
  }

  function BuildCreateItemPostResponse(post: ItemPost): CreateItemPostResponse {
    CreateItemPostResponse(post.email, post.title, post.description, post.address, post.itemPostImageUrl,
                           post.condition, post.category)
  }

  function BuildFetchItemPostResponse(post: ItemPost): FetchItemPostResponse {
    FetchItemPostResponse(post.id, post.email, post.title, post.description, post.address, post.itemPostImageUrl,
                          post.condition, post.category)
  }

  /** createItem: the author must be a registered user. */
  function CreateItem(t: PostTable, users: map<string, User>, command: CreateItemPostCommand): PostStep<CreateItemPostResponse> {
    if command.email !in users then PostStep(Failure(UserWithEmailNotFound(command.email)), t)
    else
      var post := ToEntity(command, t.nextId);
      PostStep(Success(BuildCreateItemPostResponse(post)), PostTable(t.rows + [post], t.nextId + 1))
  }

  /** createItem for an address no user has fails with USER_NOT_FOUND / 404 and stores nothing. */
  lemma CreateItemUnknownUser(t: PostTable, users: map<string, User>, command: CreateItemPostCommand)
    requires command.email !in users
    ensures CreateItem(t, users, command).result.Failure?
    ensures CreateItem(t, users, command).result.error.business.errorCode == "USER_NOT_FOUND"
    ensures CreateItem(t, users, command).result.error.business.statusCode.Value() == 404
    ensures CreateItem(t, users, command).table == t
  {
  }

  /** createItem for a registered user appends one ACTIVE post with a fresh id
      carrying the command's fields, and the response echoes them. */
  lemma CreateItemStoresActivePost(t: PostTable, users: map<string, User>, command: CreateItemPostCommand)
    requires Valid(t) && command.email in users
    ensures var step := CreateItem(t, users, command);
      && step.result.Success?
      && Valid(step.table)
      && step.table.rows[..|t.rows|] == t.rows
      && |step.table.rows| == |t.rows| + 1
      && !ExistsById(t, t.nextId)
      && FindById(step.table, t.nextId).Some?
      && var post := FindById(step.table, t.nextId).value;
      && post.status == Active
      && post.email == command.email && post.title == command.title && post.address == command.address
      && post.description == command.description && post.category == command.category
      && post.itemPostImageUrl == command.itemPostUrl && post.condition == command.condition
      && step.result.value == CreateItemPostResponse(command.email, command.title, command.description,
           command.address, command.itemPostUrl, command.condition, command.category)
  {
    var step := CreateItem(t, users, command);
    FindByIdUnique(step.table, t.nextId, |t.rows|);
  }

  /** The tests of the derived queries findAllByEmail and findAllByStatus, and of deleteById. */
  function HasEmail(email: string): ItemPost -> bool {
    (p: ItemPost) => p.email == email
  }

  function HasStatus(status: ItemPostStatus): ItemPost -> bool {
    (p: ItemPost) => p.status == status
  }

  function NotId(id: int): ItemPost -> bool {
    (p: ItemPost) => p.id != id
  }

  function FetchAll(rows: seq<ItemPost>): (r: seq<FetchItemPostResponse>)
    ensures |r| == |rows| && forall i :: 0 <= i < |rows| ==> r[i] == BuildFetchItemPostResponse(rows[i])
  {
    seq(|rows|, i requires 0 <= i < |rows| => BuildFetchItemPostResponse(rows[i]))
  }

  /** Every fetched response leads back, through its id, to the very post it was
      built from, whenever the posts come from a valid table. */
  lemma FetchedPostsLinkBack(t: PostTable, rows: seq<ItemPost>)
    requires Valid(t) && forall p :: p in rows ==> p in t.rows
    ensures |FetchAll(rows)| == |rows|
    ensures forall k :: 0 <= k < |rows| ==> FindById(t, FetchAll(rows)[k].id) == Some(rows[k])
  {
    forall k | 0 <= k < |rows|
      ensures FindById(t, FetchAll(rows)[k].id) == Some(rows[k])
    {
      assert rows[k] in t.rows;
      var i :| 0 <= i < |t.rows| && t.rows[i] == rows[k];
      FindByIdUnique(t, rows[k].id, i);
    }
  }

  /** getAllPostsByEmail: findAllByEmail, each post mapped to its response. */
  function GetAllPostsByEmail(t: PostTable, email: string): seq<FetchItemPostResponse> {
    FetchAll(Filter(t.rows, HasEmail(email)))
  }

  /** getAllActivePosts: findAllByStatus(ACTIVE), each post mapped to its response. */
  function GetAllActivePosts(t: PostTable): seq<FetchItemPostResponse> {
    FetchAll(Filter(t.rows, HasStatus(Active)))
  }

  /** getAllPostsByEmail lists exactly the posts with that address, each once,
      in table order. */
  lemma PostsByEmailExact(t: PostTable, email: string)
    requires Valid(t)
    ensures var kept := Filter(t.rows, HasEmail(email));
      && GetAllPostsByEmail(t, email) == FetchAll(kept)
      && IsSubsequence(kept, t.rows)
      && (forall p :: p in t.rows ==> (p in kept <==> p.email == email))
      && (forall p :: p in kept ==> multiset(kept)[p] == 1)
      && (forall r :: r in GetAllPostsByEmail(t, email) ==> r.email == email)
  {
    var kept := Filter(t.rows, HasEmail(email));
    FilterIsSubsequence(t.rows, HasEmail(email));
    forall p | p in kept
      ensures multiset(kept)[p] == 1
    {
      RowsOccurOnce(t, p);
      FilterCounts(t.rows, HasEmail(email), p);
    }
  }

  /** In a valid table every row occurs once. */
  lemma RowsOccurOnce(t: PostTable, p: ItemPost)
    requires Valid(t) && p in t.rows
    ensures multiset(t.rows)[p] == 1
  {
    var i :| 0 <= i < |t.rows| && t.rows[i] == p;
    assert t.rows == t.rows[..i] + [p] + t.rows[i + 1..];
    assert p !in t.rows[..i] && p !in t.rows[i + 1..];
  }

  /** getAllActivePosts lists the response of every ACTIVE row, in table order,
      and nothing that is not the response of an ACTIVE row. */
  lemma ActivePostsExact(t: PostTable)
    ensures var kept := Filter(t.rows, HasStatus(Active));
      && GetAllActivePosts(t) == FetchAll(kept)
      && IsSubsequence(kept, t.rows)
    ensures forall p :: p in t.rows && p.status == Active ==> BuildFetchItemPostResponse(p) in GetAllActivePosts(t)
    ensures forall k :: 0 <= k < |GetAllActivePosts(t)| ==>
      exists p :: p in t.rows && p.status == Active && GetAllActivePosts(t)[k] == BuildFetchItemPostResponse(p)
  {
    var kept := Filter(t.rows, HasStatus(Active));
    FilterIsSubsequence(t.rows, HasStatus(Active));
    forall p | p in t.rows && p.status == Active
      ensures BuildFetchItemPostResponse(p) in GetAllActivePosts(t)
    {
      var k :| 0 <= k < |kept| && kept[k] == p;
      assert GetAllActivePosts(t)[k] == BuildFetchItemPostResponse(p);
    }
    forall k | 0 <= k < |GetAllActivePosts(t)|
      ensures exists p :: p in t.rows && p.status == Active && GetAllActivePosts(t)[k] == BuildFetchItemPostResponse(p)
    {
      assert kept[k] in kept;
    }
  }

  function PostNotFound(id: int): Exception {
    EntityNotFound("Item post not found with id: " + LongToString(id))
  }

  /** deleteItemPost. */
  function DeleteItemPost(t: PostTable, id: int): PostStep<()> {
    if !ExistsById(t, id) then PostStep(Failure(PostNotFound(id)), t)
    else PostStep(Success(()), t.(rows := Filter(t.rows, NotId(id))))
  }

  /** deleteItemPost on an absent id throws and deletes nothing; otherwise the
      row with that id is gone and every other row stays, in order. */
  lemma DeleteRemovesExactly(t: PostTable, id: int)
    requires Valid(t)
    ensures !ExistsById(t, id) ==> DeleteItemPost(t, id) == PostStep(Failure(PostNotFound(id)), t)
    ensures ExistsById(t, id) ==>
      var after := DeleteItemPost(t, id).table;
      && DeleteItemPost(t, id).result.Success?
      && Valid(after)
      && !ExistsById(after, id)
      && IsSubsequence(after.rows, t.rows)
      && (forall p :: p in after.rows <==> p in t.rows && p.id != id)
  {
    if ExistsById(t, id) {
      var after := DeleteItemPost(t, id).table;
      FilterKeepsValid(t.rows, t.nextId, NotId(id));
      FilterIsSubsequence(t.rows, NotId(id));
      assert forall i :: 0 <= i < |after.rows| ==> after.rows[i] in after.rows;
    }
  }

  /** Filtering rows keeps their ids unique and below the generator. */
  lemma {:induction false} FilterKeepsValid(rows: seq<ItemPost>, nextId: int, keep: ItemPost -> bool)
    requires Valid(PostTable(rows, nextId))
    ensures Valid(PostTable(Filter(rows, keep), nextId))
    decreases |rows|
  {
    if rows != [] {
      var rest := rows[1..];
      assert Valid(PostTable(rest, nextId));
      FilterKeepsValid(rest, nextId, keep);
      var f := Filter(rest, keep);
      var r := Filter(rows, keep);
      if keep(rows[0]) {
        assert r == [rows[0]] + f;
        forall i, j | 0 <= i < j < |r|
          ensures r[i].id != r[j].id
        {
          if i == 0 {
            assert r[j] == f[j - 1] && f[j - 1] in rest;
            var k :| 0 <= k < |rest| && rest[k] == f[j - 1];
            assert rows[k + 1] == rest[k];
          } else {
            assert r[i] == f[i - 1] && r[j] == f[j - 1];
          }
        }
        forall i | 0 <= i < |r|
          ensures r[i].id < nextId
        {
          assert r[i] in rows;
        }
      } else {
        assert r == f;
      }
    }
  }

  /** The row of a post after the update: five fields from the command, the
      rest, including email, image and status, as they were. */
  function ApplyUpdate(post: ItemPost, fields: UpdateFields): ItemPost {
    post.(title := fields.title, description := fields.description, address := fields.address,
          condition := fields.condition, category := fields.category)
  }

  /** updateItemPost; the command's id is the one the controller set. */
  function UpdateItemPost(t: PostTable, fields: UpdateFields): PostStep<UpdateFields>
    requires fields.id.Some?
  {
    match IndexOf(t.rows, fields.id.value)
    case None => PostStep(Failure(PostNotFound(fields.id.value)), t)
    case Some(i) => PostStep(Success(fields), t.(rows := t.rows[i := ApplyUpdate(t.rows[i], fields)]))
  }

  /** updateItemPost on an absent id throws with no change; otherwise only the
      five updatable fields of that one row change, and the command comes back. */
  lemma UpdateChangesOnlyThatPost(t: PostTable, fields: UpdateFields)
    requires Valid(t) && fields.id.Some?
    ensures var id := fields.id.value;
      !ExistsById(t, id) ==> UpdateItemPost(t, fields) == PostStep(Failure(PostNotFound(id)), t)
    ensures var id := fields.id.value;
      var after := UpdateItemPost(t, fields).table;
      ExistsById(t, id) ==>
        && UpdateItemPost(t, fields).result == Success(fields)
        && Valid(after)
        && |after.rows| == |t.rows|
        && FindById(after, id).Some?
        && var before, now := FindById(t, id).value, FindById(after, id).value;
        && now.id == id && now.email == before.email && now.itemPostImageUrl == before.itemPostImageUrl
        && now.status == before.status
        && now.title == fields.title && now.description == fields.description && now.address == fields.address
        && now.condition == fields.condition && now.category == fields.category
        && (forall j :: 0 <= j < |t.rows| && t.rows[j].id != id ==> after.rows[j] == t.rows[j])
  {
    var id := fields.id.value;
    if ExistsById(t, id) {
      var i := IndexOf(t.rows, id).value;
      var after := UpdateItemPost(t, fields).table;
      assert Valid(after);
      FindByIdUnique(after, id, i);
    }
  }

  /** Every operation that changes the table keeps it valid. */
  lemma OperationsKeepValid(t: PostTable, users: map<string, User>, command: CreateItemPostCommand, id: int, fields: UpdateFields)
    requires Valid(t) && fields.id.Some?
    ensures Valid(CreateItem(t, users, command).table)
    ensures Valid(DeleteItemPost(t, id).table)
    ensures Valid(UpdateItemPost(t, fields).table)
  {
    if command.email in users {
      CreateItemStoresActivePost(t, users, command);
    }
    DeleteRemovesExactly(t, id);
    UpdateChangesOnlyThatPost(t, fields);
  }
}
