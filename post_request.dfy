/** The payload of post create and update, and the bean-validation constraints
    the web layer checks on it before a service sees it. A JSON null or a
    missing field is `None`; for tag ids an absent set and an empty set are
    different inputs, which the post service treats differently. */
module PostRequests {
  import opened Model

  datatype PostRequest = PostRequest(
    title: Option<string>,
    content: Option<string>,
    categoryId: Option<Id>,
    tagIds: Option<set<Id>>)

  const TitleMinLength: nat := 3
  const TitleMaxLength: nat := 200

  /** The length Java reports for a string: the number of UTF-16 code units, so
      a character outside the Basic Multilingual Plane counts twice. */
  function Utf16Length(s: string): (n: nat)
    ensures |s| <= n <= 2 * |s|
    ensures (forall i | 0 <= i < |s| :: s[i] as int < 0x1_0000) ==> n == |s|
    ensures (forall i | 0 <= i < |s| :: s[i] as int >= 0x1_0000) ==> n == 2 * |s|
  {
    if s == [] then 0
    else (if s[0] as int < 0x1_0000 then 1 else 2) + Utf16Length(s[1..])
  }

  /** `String.trim()` drops every leading and trailing character up to U+0020,
      so a string is blank when it has no character above that. */
  predicate IsBlank(s: string) {
    forall i | 0 <= i < |s| :: s[i] <= ' '
  }

  /** @NotBlank: present, and not blank. */
  predicate NotBlank(s: Option<string>) {
    s.Some? && !IsBlank(s.value)
  }

  /** @Size(min = 3, max = 200): a missing value passes; a present one must
      have between 3 and 200 UTF-16 code units. */
  predicate SizeWithin(s: Option<string>, min: nat, max: nat) {
    s.None? || min <= Utf16Length(s.value) <= max
  }

  predicate ValidTitle(title: Option<string>) {
    NotBlank(title) && SizeWithin(title, TitleMinLength, TitleMaxLength)
  }

  predicate ValidContent(content: Option<string>) {
    NotBlank(content)
  }

  /** The request passes validation. Neither categoryId nor tagIds carries a
      constraint. */
  predicate Valid(req: PostRequest) {
    ValidTitle(req.title) && ValidContent(req.content)
  }

  /** A valid title is present, has a visible character, and has between 2 and
      200 characters: 3 code units are at least 2 characters, and at most 200
      code units are at most 200 characters. */
  lemma ValidTitleBounds(req: PostRequest)
    requires Valid(req)
    ensures req.title.Some? && req.content.Some?
    ensures exists i :: 0 <= i < |req.title.value| && req.title.value[i] > ' '
    ensures 2 <= |req.title.value| <= TitleMaxLength
  {
    var t := req.title.value;
    assert !IsBlank(t);
    assert |t| <= Utf16Length(t) <= 2 * |t|;
  }

  /** For a title written in the Basic Multilingual Plane the size rule is a rule
      on its number of characters. */
  lemma BmpTitleSize(title: string)
    requires forall i | 0 <= i < |title| :: title[i] as int < 0x1_0000
    ensures SizeWithin(Some(title), TitleMinLength, TitleMaxLength) <==> 3 <= |title| <= 200
  {
  }

  /** Validation never looks at categoryId or tagIds: a request stays valid or
      invalid whatever they are, absent, empty or not. */
  lemma ReferencesUnconstrained(req: PostRequest, categoryId: Option<Id>, tagIds: Option<set<Id>>)
    ensures Valid(req) <==> Valid(req.(categoryId := categoryId, tagIds := tagIds))
  {
  }
}
