/** `validateCategoryName(categories)(value)`: one message, or `""` when the name is acceptable. */
module CategoryValidation {
  import opened Strings

  const CategoryRequired := "Category name is required"
  const CategoryTooShort := "Category name must be at least 2 characters"
  const CategoryTooLong := "Category name must be at most 32 characters"
  const CategoryExists := "Category already exists"

  /**
   * The rules run in a fixed order (required, too short, too long, duplicate) on the
   * trimmed value, and the first that fails decides the single message returned.
   */
  function ValidateCategoryName(categories: seq<string>, value: string): (r: string)
    ensures r == CategoryRequired <==> AllWhitespace(value)
    ensures r == CategoryTooShort <==> Utf16Length(Trim(value)) == 1
    ensures r == CategoryTooLong <==> Utf16Length(Trim(value)) > 32
    ensures r == CategoryExists <==> 2 <= Utf16Length(Trim(value)) <= 32 && Trim(value) in categories
    ensures r == "" <==> 2 <= Utf16Length(Trim(value)) <= 32 && Trim(value) !in categories
  {
    var t := Trim(value);
    if t == [] then CategoryRequired
    else if Utf16Length(t) < 2 then CategoryTooShort
    else if Utf16Length(t) > 32 then CategoryTooLong
    else if t in categories then CategoryExists
    else ""
  }

  /**
   * Whitespace around the name changes nothing: neither the length rules nor the
   * duplicate test can tell `" Drinks "` from `"Drinks"`.
   */
  lemma PaddingIgnored(categories: seq<string>, pre: string, value: string, post: string)
    requires AllWhitespace(pre) && AllWhitespace(post)
    ensures ValidateCategoryName(categories, pre + value + post) == ValidateCategoryName(categories, value)
  {
    TrimIgnoresPadding(pre, value, post);
  }

  /** A padded copy of an existing name is reported as a duplicate, not as too long or too short. */
  lemma PaddedDuplicate(categories: seq<string>, name: string, pre: string, post: string)
    requires name in categories && 2 <= Utf16Length(name) <= 32
    requires Trim(name) == name
    requires AllWhitespace(pre) && AllWhitespace(post)
    ensures ValidateCategoryName(categories, pre + name + post) == CategoryExists
  {
    TrimIgnoresPadding(pre, name, post);
  }
}
