/** ItemPostRepository and ItemPostService as objects: the service changes the
    repository's rows in place, statement by statement as the source does, and
    every method is proved to do what the corresponding function of ItemPosts says. */
module ItemPostServices {
  import opened Outcomes
  import opened Errors
  import opened Seqs
  import opened Accounts
  import opened AccountServices
  import opened ItemPosts
  import opened Requests

  /** ItemPostRepository: the item_posts rows in insertion order and the IDENTITY generator. */
  class ItemPostRepository {
    var rows: seq<ItemPost>
    var nextId: int

    constructor ()
      ensures rows == [] && nextId == 1
    {
      rows := [];
      nextId := 1;
    }

    function Table(): PostTable
      reads this
    {
      PostTable(rows, nextId)
    }

    method FindById(id: int) returns (r: Option<ItemPost>)
      ensures r == ItemPosts.FindById(Table(), id)
    {
      var i := IndexOf(rows, id);
      if i.Some? {
        r := Some(rows[i.value]);
      } else {
        r := None;
      }
    }

    method ExistsById(id: int) returns (b: bool)
      ensures b == ItemPosts.ExistsById(Table(), id)
    {
      b := IndexOf(rows, id).Some?;
    }

    method FindAllByEmail(email: string) returns (r: seq<ItemPost>)
      ensures r == Filter(rows, HasEmail(email))
      ensures forall p :: p in r <==> p in rows && p.email == email
    {
      r := Filter(rows, HasEmail(email));
    }

    method FindAllByStatus(status: ItemPostStatus) returns (r: seq<ItemPost>)
      ensures r == Filter(rows, HasStatus(status))
      ensures forall p :: p in r <==> p in rows && p.status == status
    {
      r := Filter(rows, HasStatus(status));
    }

    /** save of a new entity: the id is generated and the row appended. */
    method Insert(post: ItemPost) returns (saved: ItemPost)
      modifies this
      ensures saved == post.(id := old(nextId))
      ensures rows == old(rows) + [saved] && nextId == old(nextId) + 1
    {
      saved := post.(id := nextId);
      rows := rows + [saved];
      nextId := nextId + 1;
    }

    /** save of an entity already stored: its row is overwritten. */
    method Update(post: ItemPost)
      requires IndexOf(rows, post.id).Some?
      modifies this
      ensures rows == old(rows)[IndexOf(old(rows), post.id).value := post] && nextId == old(nextId)
    {
      rows := rows[IndexOf(rows, post.id).value := post];
    }

    method DeleteById(id: int)
      modifies this
      ensures rows == Filter(old(rows), NotId(id)) && nextId == old(nextId)
    {
      rows := Filter(rows, NotId(id));
    }
  }

  class ItemPostService {
    const itemPostRepository: ItemPostRepository
    const userRepository: UserRepository

    constructor (itemPostRepository: ItemPostRepository, userRepository: UserRepository)
      ensures this.itemPostRepository == itemPostRepository && this.userRepository == userRepository
    {
      this.itemPostRepository := itemPostRepository;
      this.userRepository := userRepository;
    }

    /** getItemById. */
    method GetItemById(id: int) returns (r: Result<ItemPost, Exception>)
      ensures r == ItemPosts.GetItemById(itemPostRepository.Table(), id)
      ensures r.Success? ==> r.value in itemPostRepository.rows && r.value.id == id
    {
      GetItemByIdOutcomes(itemPostRepository.Table(), id);
      if id < 0 {
        return Failure(InvalidItemId(id));
      }
      var response := itemPostRepository.FindById(id);
      if response.None? {
        return Failure(ItemNotFound(id));
      }
      return Success(response.value);
    }

    /** createItem: validateUserExists, toEntity, save, buildCreateItemPostResponse. */
    method CreateItem(command: CreateItemPostCommand) returns (r: Result<CreateItemPostResponse, Exception>)
      modifies itemPostRepository
      ensures PostStep(r, itemPostRepository.Table()) == ItemPosts.CreateItem(old(itemPostRepository.Table()), userRepository.users, command)
    {
      var user := userRepository.FindByEmail(command.email);
      if user.None? {
        return Failure(UserWithEmailNotFound(command.email));
      }
      var newItemPost := ToEntity(command, 0);
      newItemPost := itemPostRepository.Insert(newItemPost);
      return Success(BuildCreateItemPostResponse(newItemPost));
    }

    /** getAllPostsByEmail. */
    method GetAllPostsByEmail(email: string) returns (r: seq<FetchItemPostResponse>)
      ensures r == ItemPosts.GetAllPostsByEmail(itemPostRepository.Table(), email)
    {
      var posts := itemPostRepository.FindAllByEmail(email);
      r := FetchAll(posts);
    }

    /** getAllActivePosts. */
    method GetAllActivePosts() returns (r: seq<FetchItemPostResponse>)
      ensures r == ItemPosts.GetAllActivePosts(itemPostRepository.Table())
    {
      var posts := itemPostRepository.FindAllByStatus(Active);
      r := FetchAll(posts);
    }

    /** deleteItemPost: validateItemPostExists, then deleteById. */
    method DeleteItemPost(id: int) returns (r: Result<(), Exception>)
      modifies itemPostRepository
      ensures PostStep(r, itemPostRepository.Table()) == ItemPosts.DeleteItemPost(old(itemPostRepository.Table()), id)
    {
      var found := itemPostRepository.ExistsById(id);
      if !found {
        return Failure(PostNotFound(id));
      }
      itemPostRepository.DeleteById(id);
      return Success(());
    }

    /** updateItemPost: the existence check, five setters on the stored post, save. */
    method UpdateItemPost(command: UpdateItemPostCommand) returns (r: Result<UpdateItemPostCommand, Exception>)
      requires command.id.Some?
      modifies itemPostRepository
      ensures r.Success? ==> r.value == command
      ensures var expected := ItemPosts.UpdateItemPost(old(itemPostRepository.Table()), command.Fields());
        && itemPostRepository.Table() == expected.table
        && r.Success? == expected.result.Success?
        && (r.Failure? ==> r.error == expected.result.error)
    {
      var id := command.id.value;
      var found := itemPostRepository.ExistsById(id);
      if !found {
        return Failure(PostNotFound(id));
      }
      var optionalExistingItemPost := itemPostRepository.FindById(id);
      var existingItemPost := optionalExistingItemPost.value;
      existingItemPost := existingItemPost.(title := command.title);
      existingItemPost := existingItemPost.(description := command.description);
      existingItemPost := existingItemPost.(address := command.address);
      existingItemPost := existingItemPost.(condition := command.condition);
      existingItemPost := existingItemPost.(category := command.category);
      itemPostRepository.Update(existingItemPost);
      return Success(command);
    }
  }
}
