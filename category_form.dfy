/**
 * The category editor: the form state, loading a category into it, the
 * checks `handleSave` makes (a non-blank name, no other category with the
 * same name ignoring case), and the create or update request it sends.
 */
module CategoryForm {
  import opened Wrappers
  import opened Text
  import opened FinanceTypes

  /** The editor's fields; `icon` is "" when none is chosen. */
  datatype Form = Form(name: string, kind: CategoryType, icon: string, editing: Option<Category>)

  /** `resetForm`: an empty name, type 'want', no icon, nothing being edited. */
  function ResetForm(): (f: Form)
    ensures f.name == "" && f.kind == Want && f.icon == "" && f.editing.None?
  {
    Form("", Want, "", None)
  }

  /** `openEdit`: the form filled from a category, a missing icon shown as "". */
  function OpenEdit(c: Category): (f: Form)
    ensures f.editing == Some(c) && f.name == c.name && f.kind == c.kind
    ensures f.icon == (if c.icon.Some? then c.icon.value else "")
  {
    Form(c.name, c.kind, if c.icon.Some? then c.icon.value else "", Some(c))
  }

  /**
   * `categories.some(c => c.name.toLowerCase() === name.trim().toLowerCase()
   * && c.id !== editingCategory?.id)`.
   */
  predicate NameTaken(categories: seq<Category>, name: string, editing: Option<Category>) {
    exists i :: 0 <= i < |categories| && EqualsIgnoringCase(categories[i].name, Trim(name))
      && (editing.None? || categories[i].id != editing.value.id)
  }

  datatype SaveError = EmptyName | DuplicateName

  datatype SaveRequest =
    | Update(id: string, name: string, kind: CategoryType, icon: Option<string>)
    | Create(name: string, kind: CategoryType, icon: Option<string>, parentId: Option<string>, sortOrder: int)

  /** `icon || null`. */
  function IconOrNull(icon: string): (r: Option<string>)
    ensures r.None? <==> icon == ""
    ensures r.Some? ==> r.value == icon
  {
    if icon == "" then None else Some(icon)
  }

  /** `handleSave`: the checks in order, then the request for `updateCategory` or `createCategory`. */
  function HandleSave(f: Form, categories: seq<Category>): (r: Result<SaveRequest, SaveError>)
    ensures r == Failure(EmptyName) <==> Trim(f.name) == ""
    ensures r == Failure(DuplicateName) <==> Trim(f.name) != "" && NameTaken(categories, f.name, f.editing)
    ensures r.Success? ==> r.value.name == Trim(f.name) != "" && r.value.kind == f.kind && r.value.icon == IconOrNull(f.icon)
    ensures r.Success? ==> forall i :: 0 <= i < |categories| && (f.editing.None? || categories[i].id != f.editing.value.id) ==>
      !EqualsIgnoringCase(categories[i].name, r.value.name)
    ensures r.Success? && f.editing.Some? ==> r.value == Update(f.editing.value.id, Trim(f.name), f.kind, IconOrNull(f.icon))
    ensures r.Success? && f.editing.None? ==> r.value == Create(Trim(f.name), f.kind, IconOrNull(f.icon), None, |categories|)
  {
    var trimmed := Trim(f.name);
    if trimmed == "" then Failure(EmptyName)
    else if NameTaken(categories, f.name, f.editing) then Failure(DuplicateName)
    else if f.editing.Some? then Success(Update(f.editing.value.id, trimmed, f.kind, IconOrNull(f.icon)))
    else Success(Create(trimmed, f.kind, IconOrNull(f.icon), None, |categories|))
  }

  /** The form after saving: reset once the request went through, kept as it was otherwise. */
  function AfterSave(f: Form, categories: seq<Category>, requestSucceeded: bool): (g: Form)
    ensures HandleSave(f, categories).Success? && requestSucceeded ==> g == ResetForm()
    ensures !(HandleSave(f, categories).Success? && requestSucceeded) ==> g == f
  {
    if HandleSave(f, categories).Success? && requestSucceeded then ResetForm() else f
  }

  /** Only the trimmed name counted without case matters to the duplicate check. */
  lemma NameTakenIgnoresCaseAndPadding(categories: seq<Category>, a: string, b: string, editing: Option<Category>)
    requires EqualsIgnoringCase(Trim(a), Trim(b))
    ensures NameTaken(categories, a, editing) <==> NameTaken(categories, b, editing)
  {
  }

  /**
   * While a category is edited, its own name does not count: keeping the
   * name, or changing only its case, is refused only when some other
   * category has that name.
   */
  lemma OwnNameAllowed(categories: seq<Category>, c: Category, name: string)
    requires EqualsIgnoringCase(Trim(name), c.name)
    requires forall i :: 0 <= i < |categories| && EqualsIgnoringCase(categories[i].name, c.name) ==> categories[i].id == c.id
    ensures !NameTaken(categories, name, Some(c))
  {
  }

  /**
   * Saving a category that has just been loaded and not changed sends its
   * own fields back unchanged, as long as its stored name is trimmed, its
   * icon is not the empty text, and no other category shares its name.
   */
  lemma EditUnchangedRoundTrip(categories: seq<Category>, c: Category)
    requires c.name != "" && !IsSpace(c.name[0]) && !IsSpace(c.name[|c.name| - 1])
    requires c.icon != Some("")
    requires forall i :: 0 <= i < |categories| && EqualsIgnoringCase(categories[i].name, c.name) ==> categories[i].id == c.id
    ensures HandleSave(OpenEdit(c), categories) == Success(Update(c.id, c.name, c.kind, c.icon))
  {
    var f := OpenEdit(c);
    TrimUnpadded(c.name);
    assert Trim(f.name) == c.name;
    OwnNameAllowed(categories, c, f.name);
    assert IconOrNull(f.icon) == c.icon;
    var r := HandleSave(f, categories);
    assert r == Success(Update(c.id, Trim(f.name), f.kind, IconOrNull(f.icon)));
  }
}
