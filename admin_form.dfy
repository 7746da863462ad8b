/**
 * The admin entry form (admin.js): how `handleFormSubmit` turns the form's
 * values into a record, the order in which it rejects incomplete input, and
 * how `editSoftware` fills the form from a stored entry.
 */
module AdminForm {
  import opened Text
  import opened Lists
  import opened Catalog

  const DefaultIcon := "fas fa-cube"
  const DefaultIconColor := "#2575fc"
  const DefaultCategory := "other"
  const DefaultType := "software"

  /** The values of the form's controls: text fields, the two selects, the
      colour input, the "popular" checkbox and the comma-separated tag field. */
  datatype FormInput = FormInput(
    name: string,
    url: string,
    description: string,
    category: string,
    itemType: string,
    icon: string,
    iconColor: string,
    popular: bool,
    tags: string)

  /** Why a submission is refused, one notification each. */
  datatype FormError =
    | MissingName
    | MissingUrl
    | MissingDescription
    | MissingCategory
    | MissingType
    | InvalidUrl

  /** `tag.length > 0`. */
  predicate NonEmpty(t: string) {
    |t| > 0
  }

  /** `.map(tag => tag.trim())`. */
  function TrimEach(pieces: seq<string>): (r: seq<string>)
    ensures |r| == |pieces|
  {
    seq(|pieces|, i requires 0 <= i < |pieces| => Trim(pieces[i]))
  }

  /** A tag list as the form produces it: no empty tag, no tag with whitespace
      at either end, no tag holding a comma. */
  predicate WellFormedTags(tags: seq<string>) {
    forall i :: 0 <= i < |tags| ==> NonEmpty(tags[i]) && IsTrimmed(tags[i]) && ',' !in tags[i]
  }

  /** The tag field: split at every comma, each piece trimmed, empty pieces
      dropped, the remaining pieces kept in their order. */
  function ParseTags(text: string): (tags: seq<string>)
    ensures WellFormedTags(tags)
  {
    var pieces := Split(text, ',');
    var trimmed := TrimEach(pieces);
    assert forall i :: 0 <= i < |trimmed| ==> ',' !in trimmed[i] by {
      forall i | 0 <= i < |trimmed|
        ensures ',' !in trimmed[i]
      {
        TrimAddsNothing(pieces[i], ',');
      }
    }
    Filter(trimmed, NonEmpty)
  }

  /** `tags.join(', ')`, as `editSoftware` writes the tags into the form. */
  function JoinTags(tags: seq<string>): string {
    Join(tags, ", ")
  }

  /** Text after a leading space splits into the same trimmed pieces. */
  lemma LeadingSpaceKeepsTrimmedPieces(s: string)
    ensures TrimEach(Split(" " + s, ',')) == TrimEach(Split(s, ','))
  {
    var t := " " + s;
    var rest := Split(s, ',');
    assert t != [] && t[0] == ' ' && t[1..] == s;
    var pieces := Split(t, ',');
    assert pieces == [[' '] + rest[0]] + rest[1..];
    assert |pieces| == |rest|;
    assert AllWhitespace([' ']);
    TrimIgnoresLeadingWhitespace([' '], rest[0]);
    forall i | 0 <= i < |rest|
      ensures Trim(pieces[i]) == Trim(rest[i])
    {
      if i > 0 {
        assert pieces[i] == rest[i];
      }
    }
  }

  lemma TrimEachCons(x: string, xs: seq<string>)
    ensures TrimEach([x] + xs) == [Trim(x)] + TrimEach(xs)
  {
  }

  /** One more tag in front: its piece comes first, then the pieces of the rest. */
  lemma TrimmedPiecesOfJoinStep(t0: string, rest: seq<string>)
    requires IsTrimmed(t0) && ',' !in t0 && rest != []
    requires TrimEach(Split(JoinTags(rest), ',')) == rest
    ensures TrimEach(Split(JoinTags([t0] + rest), ',')) == [t0] + rest
  {
    var tags := [t0] + rest;
    var j := JoinTags(rest);
    var tail := " " + j;
    assert JoinTags(tags) == t0 + [','] + tail by {
      assert tags[1..] == rest;
      assert JoinTags(tags) == t0 + ", " + j;
    }
    SplitAfterPiece(t0, tail, ',');
    LeadingSpaceKeepsTrimmedPieces(j);
    TrimEachCons(t0, Split(tail, ','));
    TrimTrimmed(t0);
    calc {
      TrimEach(Split(JoinTags(tags), ','));
      TrimEach([t0] + Split(tail, ','));
      [Trim(t0)] + TrimEach(Split(tail, ','));
      [t0] + TrimEach(Split(j, ','));
    }
  }

  /** Splitting joined tags and trimming the pieces gives the tags back. */
  lemma {:induction false} TrimmedPiecesOfJoin(tags: seq<string>)
    requires tags != [] && WellFormedTags(tags)
    ensures TrimEach(Split(JoinTags(tags), ',')) == tags
    decreases |tags|
  {
    var t0 := tags[0];
    assert IsTrimmed(t0) && ',' !in t0;
    if |tags| == 1 {
      SplitWithoutSeparator(t0, ',');
      assert JoinTags(tags) == t0;
      TrimEachCons(t0, []);
      TrimTrimmed(t0);
    } else {
      var rest := tags[1..];
      assert WellFormedTags(rest) by {
        forall i | 0 <= i < |rest|
          ensures NonEmpty(rest[i]) && IsTrimmed(rest[i]) && ',' !in rest[i]
        {
          assert rest[i] == tags[i + 1];
        }
      }
      TrimmedPiecesOfJoin(rest);
      TrimmedPiecesOfJoinStep(t0, rest);
      assert tags == [t0] + rest;
    }
  }

  /** Writing well-formed tags into the form with `join(', ')` and parsing the
      field again yields the same tags in the same order. */
  lemma ParseJoinedTags(tags: seq<string>)
    requires WellFormedTags(tags)
    ensures ParseTags(JoinTags(tags)) == tags
  {
    if tags == [] {
      assert Split("", ',') == [""];
      assert TrimEach([""]) == [""];
      assert [""][..0] == [];
      assert Filter([""], NonEmpty) == [];
    } else {
      TrimmedPiecesOfJoin(tags);
      FilterKeepsAll(tags, NonEmpty);
    }
  }

  /** The record `handleFormSubmit` builds: name, url, description and icon
      trimmed; category, type and colour taken as they are; tags parsed. */
  function BuildRecord(f: FormInput, id: int): (r: Entry)
    ensures r.id == id
    ensures r.name == Trim(f.name) && r.url == Trim(f.url) && r.description == Trim(f.description)
    ensures r.icon == Trim(f.icon) && r.tags == ParseTags(f.tags)
    ensures IsTrimmed(r.name) && IsTrimmed(r.url) && IsTrimmed(r.description) && IsTrimmed(r.icon)
    ensures r.name == "" <==> AllWhitespace(f.name)
    ensures r.url == "" <==> AllWhitespace(f.url)
    ensures r.description == "" <==> AllWhitespace(f.description)
    ensures r.category == f.category && r.itemType == f.itemType
    ensures r.iconColor == f.iconColor && r.popular == f.popular
    ensures WellFormedTags(r.tags)
  {
    Entry(id, Trim(f.name), Trim(f.url), Trim(f.description), f.category, f.itemType,
          Trim(f.icon), f.iconColor, f.popular, ParseTags(f.tags))
  }

  /** The checks of `handleFormSubmit`, in their order: the first empty field
      among name, url, description, category and type is reported, and only a
      record with all five is checked with the URL parser. */
  function CheckRecord(e: Entry, urlParses: string -> bool): (err: Option<FormError>)
    ensures err == None <==>
      e.name != "" && e.url != "" && e.description != "" && e.category != "" &&
      e.itemType != "" && urlParses(e.url)
    ensures err == Some(MissingName) <==> e.name == ""
    ensures err == Some(MissingUrl) <==> e.name != "" && e.url == ""
    ensures err == Some(MissingDescription) <==> e.name != "" && e.url != "" && e.description == ""
    ensures err == Some(MissingCategory) <==>
      e.name != "" && e.url != "" && e.description != "" && e.category == ""
    ensures err == Some(MissingType) <==>
      e.name != "" && e.url != "" && e.description != "" && e.category != "" && e.itemType == ""
    ensures err == Some(InvalidUrl) <==>
      e.name != "" && e.url != "" && e.description != "" && e.category != "" &&
      e.itemType != "" && !urlParses(e.url)
  {
    if e.name == "" then Some(MissingName)
    else if e.url == "" then Some(MissingUrl)
    else if e.description == "" then Some(MissingDescription)
    else if e.category == "" then Some(MissingCategory)
    else if e.itemType == "" then Some(MissingType)
    else if !urlParses(e.url) then Some(InvalidUrl)
    else None
  }

  /** `a || b` on strings. */
  function OrElse(a: string, b: string): string {
    if a != "" then a else b
  }

  /** The form as `editSoftware` fills it from a stored entry, with the
      defaults it puts in place of empty category, type, icon and colour. */
  function PrefillForm(e: Entry): (f: FormInput)
    ensures f.name == e.name && f.url == e.url && f.description == e.description && f.popular == e.popular
    ensures f.category != "" && f.itemType != "" && f.icon != "" && f.iconColor != ""
    ensures e.category != "" ==> f.category == e.category
    ensures e.itemType != "" ==> f.itemType == e.itemType
    ensures e.icon != "" ==> f.icon == e.icon
    ensures e.iconColor != "" ==> f.iconColor == e.iconColor
    ensures e.category == "" ==> f.category == DefaultCategory
    ensures e.itemType == "" ==> f.itemType == DefaultType
    ensures e.icon == "" ==> f.icon == DefaultIcon
    ensures e.iconColor == "" ==> f.iconColor == DefaultIconColor
    ensures f.tags == JoinTags(e.tags)
  {
    FormInput(e.name, e.url, e.description, OrElse(e.category, DefaultCategory),
              OrElse(e.itemType, DefaultType), OrElse(e.icon, DefaultIcon),
              OrElse(e.iconColor, DefaultIconColor), e.popular, JoinTags(e.tags))
  }

  /** An entry that the form reproduces exactly. */
  predicate FormNormal(e: Entry) {
    && IsTrimmed(e.name) && IsTrimmed(e.url) && IsTrimmed(e.description) && IsTrimmed(e.icon)
    && e.category != "" && e.itemType != "" && e.icon != "" && e.iconColor != ""
    && WellFormedTags(e.tags)
  }

  /** Opening an entry for editing and submitting the untouched form rebuilds
      the very same entry. */
  lemma ResubmitUnchanged(e: Entry)
    requires FormNormal(e)
    ensures BuildRecord(PrefillForm(e), e.id) == e
  {
    TrimTrimmed(e.name);
    TrimTrimmed(e.url);
    TrimTrimmed(e.description);
    TrimTrimmed(e.icon);
    ParseJoinedTags(e.tags);
  }

  /** Every record the form builds has trimmed text fields and well-formed tags,
      so it is form-normal as soon as category, type, icon and colour are set. */
  lemma BuiltRecordIsNormal(f: FormInput, id: int)
    requires f.category != "" && f.itemType != "" && f.iconColor != "" && Trim(f.icon) != ""
    ensures FormNormal(BuildRecord(f, id))
  {
  }

  /** Hence submitting, re-opening and submitting again is a fixed point. */
  lemma ResubmitIsIdempotent(f: FormInput, id: int)
    requires f.category != "" && f.itemType != "" && f.iconColor != "" && Trim(f.icon) != ""
    ensures BuildRecord(PrefillForm(BuildRecord(f, id)), id) == BuildRecord(f, id)
  {
    BuiltRecordIsNormal(f, id);
    ResubmitUnchanged(BuildRecord(f, id));
  }
}
