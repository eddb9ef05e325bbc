/** The cross-field validators of the change-password command and request and of
    the item-post update command. A Java null is `None`. */
module Requests {
  import opened Outcomes
  import opened Enums
  import opened ItemPosts

  /** isNotEmpty: non-null and of positive length. */
  predicate IsNotEmpty(value: Option<string>) {
    value.Some? && |value.value| > 0
  }

  // ---------------------------------------------------------------------------
  // ChangePasswordCommand
  // ---------------------------------------------------------------------------

  datatype ChangePasswordCommand = ChangePasswordCommand(
    email: Option<string>,
    oldPassword: Option<string>,
    newPassword: Option<string>,
    confirmPassword: Option<string>)
  {
    /** passwordsMatch: newPassword.equals(confirmPassword), which is false for a
        null confirmPassword and throws for a null newPassword. */
    predicate PasswordsMatch()
      requires newPassword.Some?
    {
      confirmPassword == Some(newPassword.value)
    }

    /** isValid: the && chain reaches passwordsMatch only once newPassword is non-empty. */
    predicate IsValid() {
      IsNotEmpty(email) && IsNotEmpty(oldPassword) && IsNotEmpty(newPassword) && PasswordsMatch()
    }
  }

  /** isValid holds exactly when the three fields are non-empty and the
      confirmation equals the new password; the confirmation is then non-empty,
      and a null or empty field, or a null confirmation, gives false. */
  lemma ChangePasswordCommandValidIff(c: ChangePasswordCommand)
    ensures c.IsValid() <==>
      && c.email.Some? && c.email.value != ""
      && c.oldPassword.Some? && c.oldPassword.value != ""
      && c.newPassword.Some? && c.newPassword.value != ""
      && c.confirmPassword == c.newPassword
    ensures c.IsValid() ==> IsNotEmpty(c.confirmPassword)
    ensures c.confirmPassword.None? ==> !c.IsValid()
    ensures !IsNotEmpty(c.email) || !IsNotEmpty(c.oldPassword) || !IsNotEmpty(c.newPassword) ==> !c.IsValid()
  {
  }

  // ---------------------------------------------------------------------------
  // ChangePasswordRequestDTO
  // ---------------------------------------------------------------------------

  datatype ChangePasswordRequest = ChangePasswordRequest(
    oldPassword: Option<string>,
    newPassword: Option<string>,
    confirmPassword: Option<string>)
  {
    predicate PasswordsMatch()
      requires newPassword.Some?
    {
      confirmPassword == Some(newPassword.value)
    }

    predicate IsValid() {
      IsNotEmpty(oldPassword) && IsNotEmpty(newPassword) && PasswordsMatch()
    }

    /** The command the controller builds from the request for an address. */
    function ToCommand(email: string): ChangePasswordCommand {
      ChangePasswordCommand(Some(email), oldPassword, newPassword, confirmPassword)
    }
  }

  /** The request is valid exactly when both passwords are non-empty and the
      confirmation equals the new one; an empty old password gives false whatever
      the rest; a valid request makes a valid command for any non-empty address. */
  lemma ChangePasswordRequestValidIff(r: ChangePasswordRequest, email: string)
    ensures r.IsValid() <==>
      && r.oldPassword.Some? && r.oldPassword.value != ""
      && r.newPassword.Some? && r.newPassword.value != ""
      && r.confirmPassword == r.newPassword
    ensures r.IsValid() ==> IsNotEmpty(r.confirmPassword)
    ensures r.oldPassword == Some("") ==> !r.IsValid()
    ensures r.newPassword.None? ==> !r.IsValid()
    ensures email != "" ==> (r.ToCommand(email).IsValid() <==> r.IsValid())
  {
  }

  // ---------------------------------------------------------------------------
  // UpdateItemPostCommand
  // ---------------------------------------------------------------------------

  /** isValidId: non-null and positive. */
  predicate IsValidId(value: Option<int>) {
    value.Some? && value.value > 0
  }

  /** isValid over the command's fields; the description is not checked. */
  predicate UpdateFieldsAreValid(f: UpdateFields) {
    IsValidId(f.id) && IsNotEmpty(f.title) && IsNotEmpty(f.address) && f.category.Some? && f.condition.Some?
  }

  /** A command is valid exactly when it has a positive id, a non-empty title and
      address and both enums; id 0, which getItemById lets through its sign check, is invalid here;
      an empty or missing description does not make a command invalid. */
  lemma UpdateFieldsValidity(f: UpdateFields, t: PostTable)
    ensures UpdateFieldsAreValid(f) <==>
      && f.id.Some? && f.id.value > 0
      && f.title.Some? && f.title.value != "" && f.address.Some? && f.address.value != ""
      && f.category.Some? && f.condition.Some?
    ensures f.id == Some(0) ==> !UpdateFieldsAreValid(f) && GetItemById(t, 0) != Failure(InvalidItemId(0))
    ensures UpdateFieldsAreValid(f) ==> UpdateFieldsAreValid(f.(description := Some(""))) && UpdateFieldsAreValid(f.(description := None))
  {
    GetItemByIdOutcomes(t, 0);
  }

  class UpdateItemPostCommand {
    var id: Option<int>
    var title: Option<string>
    var description: Option<string>
    var address: Option<string>
    var category: Option<Category>
    var condition: Option<Condition>

    constructor (fields: UpdateFields)
      ensures Fields() == fields
    {
      id := fields.id;
      title := fields.title;
      description := fields.description;
      address := fields.address;
      category := fields.category;
      condition := fields.condition;
    }

    function Fields(): UpdateFields
      reads this
    {
      UpdateFields(id, title, description, address, category, condition)
    }

    predicate IsValid()
      reads this
    {
      UpdateFieldsAreValid(Fields())
    }

    /** setPostId: the id and nothing else. */
    method SetPostId(postId: Option<int>)
      modifies this
      ensures Fields() == old(Fields()).(id := postId)
    {
      id := postId;
    }
  }
}
