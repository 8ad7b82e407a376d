/** `validateMenu(categories)(form)`: the field-to-message error map for a menu item form. */
module MenuValidation {
  import opened Options
  import opened Strings

  /**
   * A partially filled menu item form. A missing field is `None`; `price` stands for the
   * numeric value of the price field and `available` is `None` unless a genuine boolean.
   */
  datatype MenuForm = MenuForm(
    name: Option<string>,
    description: Option<string>,
    price: Option<real>,
    image: Option<string>,
    category: Option<string>,
    available: Option<bool>,
    ingredients: Option<seq<string>>)

  const NameRequired := "Name is required (min 2 characters)"
  const NameTooLong := "Name must be at most 64 characters"
  const DescriptionRequired := "Description is required (min 5 characters)"
  const DescriptionTooLong := "Description must be at most 256 characters"
  const PriceInvalid := "Price must be greater than 0"
  const CategoryRequired := "Category is required"
  const IngredientsInvalid := "At least one valid ingredient is required"
  const ImageRequired := "Image is required"
  const AvailabilityRequired := "Availability is required"

  /**
   * The error record: one optional message per property of the form. A property that
   * has no entry in the record is `None` here.
   */
  datatype MenuErrors = MenuErrors(
    name: Option<string>,
    description: Option<string>,
    price: Option<string>,
    category: Option<string>,
    ingredients: Option<string>,
    image: Option<string>,
    available: Option<string>)

  const NoErrors := MenuErrors(None, None, None, None, None, None, None)

  /** JavaScript truthiness of an optional string: present and not `""`. */
  predicate Truthy(s: Option<string>) {
    s.Some? && s.value != ""
  }

  predicate NameValid(name: Option<string>) {
    name.Some? && 2 <= Utf16Length(Trim(name.value)) && Utf16Length(name.value) <= 64
  }

  predicate DescriptionValid(d: Option<string>) {
    d.Some? && 5 <= Utf16Length(Trim(d.value)) && Utf16Length(d.value) <= 256
  }

  predicate PriceValid(p: Option<real>) {
    p.Some? && p.value > 0.0
  }

  predicate CategoryValid(categories: seq<string>, c: Option<string>) {
    Truthy(c) && c.value in categories
  }

  predicate IngredientsValid(ings: Option<seq<string>>) {
    ings.Some? && |ings.value| > 0 && forall i | 0 <= i < |ings.value| :: !AllWhitespace(ings.value[i])
  }

  predicate MenuFormValid(categories: seq<string>, form: MenuForm) {
    NameValid(form.name) && DescriptionValid(form.description) && PriceValid(form.price) &&
    CategoryValid(categories, form.category) && IngredientsValid(form.ingredients) &&
    Truthy(form.image) && form.available.Some?
  }

  /**
   * The `name` entry after both of its rules have run: the length-64 rule runs second and
   * overwrites the "required" message, even for a name that is blank after trimming.
   */
  function NameError(name: Option<string>): (r: Option<string>)
    ensures r.Some? <==> !NameValid(name)
    ensures r.Some? ==> r.value == if name.Some? && Utf16Length(name.value) > 64 then NameTooLong else NameRequired
  {
    var e := if !Truthy(name) || Utf16Length(Trim(name.value)) < 2 then Some(NameRequired) else None;
    if Truthy(name) && Utf16Length(name.value) > 64 then Some(NameTooLong) else e
  }

  /**
   * A single emoji is two UTF-16 code units, so it is long enough for a name; a single
   * letter is not.
   */
  lemma EmojiNameAccepted()
    ensures NameError(Some("\U{1F355}")) == None
    ensures NameError(Some("a")) == Some(NameRequired)
  {
    assert Trim("\U{1F355}") == "\U{1F355}";
  }

  /** The `description` entry: the same overwrite, with bounds 5 (trimmed) and 256 (raw). */
  function DescriptionError(d: Option<string>): (r: Option<string>)
    ensures r.Some? <==> !DescriptionValid(d)
    ensures r.Some? ==> r.value == if d.Some? && Utf16Length(d.value) > 256 then DescriptionTooLong else DescriptionRequired
  {
    var e := if !Truthy(d) || Utf16Length(Trim(d.value)) < 5 then Some(DescriptionRequired) else None;
    if Truthy(d) && Utf16Length(d.value) > 256 then Some(DescriptionTooLong) else e
  }

  /** `ingredients.some(i => !i.trim())`: some entry is blank. */
  function IngredientsError(ings: Option<seq<string>>): (r: Option<string>)
    ensures r.Some? <==> !IngredientsValid(ings)
    ensures r.Some? ==> r.value == IngredientsInvalid
  {
    if ings.None? || |ings.value| == 0 || exists i | 0 <= i < |ings.value| :: Trim(ings.value[i]) == []
    then Some(IngredientsInvalid)
    else None
  }

  /**
   * `validateMenu(categories)(form)`: every entry is present exactly when its rule fails,
   * and the record is empty exactly when the whole form is acceptable.
   */
  function ValidateMenu(categories: seq<string>, form: MenuForm): (errors: MenuErrors)
    ensures errors.name.Some? <==> !NameValid(form.name)
    ensures errors.name.Some? ==>
      errors.name.value == if form.name.Some? && Utf16Length(form.name.value) > 64 then NameTooLong else NameRequired
    ensures errors.description.Some? <==> !DescriptionValid(form.description)
    ensures errors.description.Some? ==>
      errors.description.value ==
        if form.description.Some? && Utf16Length(form.description.value) > 256 then DescriptionTooLong else DescriptionRequired
    ensures errors.price.Some? <==> !PriceValid(form.price)
    ensures errors.price.Some? ==> errors.price.value == PriceInvalid
    ensures errors.category.Some? <==> !CategoryValid(categories, form.category)
    ensures errors.category.Some? ==> errors.category.value == CategoryRequired
    ensures errors.ingredients.Some? <==> !IngredientsValid(form.ingredients)
    ensures errors.ingredients.Some? ==> errors.ingredients.value == IngredientsInvalid
    ensures errors.image.Some? <==> !Truthy(form.image)
    ensures errors.image.Some? ==> errors.image.value == ImageRequired
    ensures errors.available.Some? <==> form.available.None?
    ensures errors.available.Some? ==> errors.available.value == AvailabilityRequired
    ensures errors == NoErrors <==> MenuFormValid(categories, form)
  {
    MenuErrors(
      NameError(form.name),
      DescriptionError(form.description),
      if form.price.None? || form.price.value <= 0.0 then Some(PriceInvalid) else None,
      if !Truthy(form.category) || form.category.value !in categories then Some(CategoryRequired) else None,
      IngredientsError(form.ingredients),
      if !Truthy(form.image) then Some(ImageRequired) else None,
      if form.available.None? then Some(AvailabilityRequired) else None)
  }
}
