/** The admin panel: the recipe form's edit/save cycle, deletion and logout. */
module AdminPanel {
  import opened Wrappers
  import opened LocalStorage
  import opened ApiClient
  import opened RecipeData
  import Text
  import RecipeRoutes

  const SaveFallbackError := "Error saving recipe"
  const LoadError := "Failed to load recipes"
  const DeleteError := "Error deleting recipe"

  /** The four text inputs of the recipe form. */
  datatype FormData = FormData(title: string, description: string, ingredients: string, instructions: string)

  const EmptyForm := FormData("", "", "", "")

  /** The JSON body the form is sent as: every field is present, possibly empty. */
  function AsBody(f: FormData): (b: Body)
    ensures b.title == Some(f.title) && b.description == Some(f.description)
    ensures b.ingredients == Some(f.ingredients) && b.instructions == Some(f.instructions)
  {
    Body(Some(f.title), Some(f.description), Some(f.ingredients), Some(f.instructions))
  }

  /** The form filled in from a stored recipe. */
  function FormOf(recipe: Recipe): (f: FormData)
    ensures f.title == recipe.title && f.description == recipe.description
    ensures f.ingredients == recipe.ingredients && f.instructions == recipe.instructions
  {
    FormData(recipe.title, recipe.description, recipe.ingredients, recipe.instructions)
  }

  /** The request a submit sends: an update of the recipe being edited, else a create. */
  function SubmitCall(editingId: Option<string>, form: FormData): (c: ApiCall)
    ensures Truthy(editingId) ==> c == ApiCall.Update(editingId.value, AsBody(form))
    ensures !Truthy(editingId) ==> c == ApiCall.Create(AsBody(form))
  {
    if Truthy(editingId) then ApiCall.Update(editingId.value, AsBody(form)) else ApiCall.Create(AsBody(form))
  }

  /**
   * A submit reaches the server's update route for the edited id (or the create
   * route), carrying the form as its body, and is subject to the authentication gate.
   */
  lemma SubmitReachesItsRoute(editingId: Option<string>, form: FormData)
    requires Truthy(editingId) ==> '/' !in editingId.value
    ensures var c := SubmitCall(editingId, form);
      RecipeRoutes.ParseRoute(Verb(c), Path(c), BodyOf(c)) ==
        if Truthy(editingId) then Some(RecipeRoutes.UpdateOne(editingId.value, AsBody(form)))
        else Some(RecipeRoutes.CreateOne(AsBody(form)))
    ensures var c := SubmitCall(editingId, form);
      RecipeRoutes.RequiresAuth(ServerRoute(c).value)
  {
    RecipeCallsReachTheirRoutes(SubmitCall(editingId, form));
  }

  /** A reset form is rejected by the server's required-field check. */
  lemma EmptyFormIsRejected()
    ensures RecipeRoutes.Validate(AsBody(EmptyForm)).None?
  {
  }

  /**
   * Editing a recipe the server stored and saving it unchanged stores the same fields
   * again, as long as none of them was trimmed down to nothing.
   */
  lemma {:induction false} ResubmitStoresSameFields(body: Body, recipe: Recipe)
    requires RecipeRoutes.Validate(body).Some?
    requires var f := RecipeRoutes.Validate(body).value;
      recipe.title == f.title && recipe.description == f.description &&
      recipe.ingredients == f.ingredients && recipe.instructions == f.instructions
    requires recipe.title != "" && recipe.description != "" && recipe.ingredients != "" && recipe.instructions != ""
    ensures RecipeRoutes.Validate(AsBody(FormOf(recipe))) == RecipeRoutes.Validate(body)
  {
    Text.TrimIdempotent(body.title.value);
    Text.TrimIdempotent(body.description.value);
    Text.TrimIdempotent(body.ingredients.value);
    Text.TrimIdempotent(body.instructions.value);
  }

  class Panel {
    var recipes: seq<Recipe>
    var formData: FormData
    var editingId: Option<string>
    var loading: bool
    var error: string

    /** A freshly opened panel, before its first fetch has come back. */
    constructor ()
      ensures recipes == [] && formData == EmptyForm && editingId == None && !loading && error == ""
    {
      recipes, formData, editingId, loading, error := [], EmptyForm, None, false, "";
    }

    /** `fetchRecipes`: the list replaces the shown recipes; a failure only sets the error. */
    method Refresh(storage: Storage, fetched: Outcome<seq<Recipe>>)
      modifies this, storage
      ensures fetched.Ok? ==> recipes == fetched.data && error == old(error)
      ensures fetched.Err? ==> recipes == old(recipes) && error == LoadError
      ensures formData == old(formData) && editingId == old(editingId) && loading == old(loading)
      ensures storage.items == Intercepted(old(storage.items), fetched)
    {
      var seen := InterceptResponse(storage, fetched);
      if seen.Ok? {
        recipes := seen.data;
      } else {
        error := LoadError;
      }
    }

    /** The start of a save: the error is cleared, loading is shown, and the request is named. */
    method BeginSubmit() returns (call: ApiCall)
      modifies this
      ensures error == "" && loading
      ensures call == SubmitCall(editingId, formData)
      ensures recipes == old(recipes) && formData == old(formData) && editingId == old(editingId)
    {
      error := "";
      loading := true;
      if Truthy(editingId) {
        call := ApiCall.Update(editingId.value, AsBody(formData));
      } else {
        call := ApiCall.Create(AsBody(formData));
      }
    }

    /**
     * The rest of a save: a success resets the form, leaves edit mode and refetches
     * the list; a failure keeps the form and the edited id and shows the server's
     * message or the fallback; loading ends either way.
     */
    method CompleteSubmit(storage: Storage, reply: Outcome<Recipe>, fetched: Outcome<seq<Recipe>>)
      modifies this, storage
      ensures !loading
      ensures reply.Ok? ==> formData == EmptyForm && editingId == None
      ensures reply.Ok? ==> storage.items == Intercepted(Intercepted(old(storage.items), reply), fetched)
      ensures reply.Ok? && fetched.Ok? ==> recipes == fetched.data && error == old(error)
      ensures reply.Ok? && fetched.Err? ==> recipes == old(recipes) && error == LoadError
      ensures reply.Err? ==> formData == old(formData) && editingId == old(editingId) && recipes == old(recipes)
      ensures reply.Err? ==> error == ErrorText(reply.error, SaveFallbackError)
      ensures reply.Err? ==> storage.items == Intercepted(old(storage.items), reply)
    {
      var seen := InterceptResponse(storage, reply);
      if seen.Ok? {
        formData := EmptyForm;
        editingId := None;
        Refresh(storage, fetched);
      } else {
        error := ErrorText(seen.error, SaveFallbackError);
      }
      loading := false;
    }

    /** `handleEdit`: the form takes the recipe's four fields and the panel edits its id. */
    method Edit(recipe: Recipe)
      modifies this
      ensures formData == FormOf(recipe) && editingId == Some(recipe.id) && error == ""
      ensures recipes == old(recipes) && loading == old(loading)
    {
      formData := FormData(recipe.title, recipe.description, recipe.ingredients, recipe.instructions);
      editingId := Some(recipe.id);
      error := "";
    }

    /** `handleCancel`: back to an empty form in create mode, with no error. */
    method Cancel()
      modifies this
      ensures formData == EmptyForm && editingId == None && error == ""
      ensures recipes == old(recipes) && loading == old(loading)
    {
      editingId := None;
      formData := EmptyForm;
      error := "";
    }

    /**
     * `handleDelete`: nothing happens unless the user confirms; then the delete
     * request is sent, a success refetches the list, and a failure shows a fixed
     * message (not the server's).
     */
    method Delete<T>(id: string, confirmed: bool, storage: Storage, reply: Outcome<T>, fetched: Outcome<seq<Recipe>>)
      returns (call: Option<ApiCall>)
      modifies this, storage
      ensures !confirmed ==> call == None && storage.items == old(storage.items)
      ensures !confirmed ==> recipes == old(recipes) && error == old(error)
      ensures confirmed ==> call == Some(ApiCall.Delete(id))
      ensures confirmed && reply.Ok? ==> storage.items == Intercepted(old(storage.items), fetched)
      ensures confirmed && reply.Ok? && fetched.Ok? ==> recipes == fetched.data && error == old(error)
      ensures confirmed && reply.Ok? && fetched.Err? ==> recipes == old(recipes) && error == LoadError
      ensures confirmed && reply.Err? ==> storage.items == Intercepted(old(storage.items), reply)
      ensures confirmed && reply.Err? ==> recipes == old(recipes) && error == DeleteError
      ensures formData == old(formData) && editingId == old(editingId) && loading == old(loading)
    {
      if !confirmed {
        return None;
      }
      call := Some(ApiCall.Delete(id));
      var seen := InterceptResponse(storage, reply);
      if seen.Ok? {
        Refresh(storage, fetched);
      } else {
        error := DeleteError;
      }
    }

    /** `handleLogout`: only the token and the username leave the storage. */
    method Logout(storage: Storage)
      modifies storage
      ensures storage.items == old(storage.items) - {TokenKey, UsernameKey}
    {
      storage.RemoveItem(TokenKey);
      storage.RemoveItem(UsernameKey);
    }
  }
}
