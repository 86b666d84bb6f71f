/**
 * The profile page's editor: a user record and two id-keyed lists (social
 * profiles, education), one edit dialog at a time, and the avatar initials.
 *
 * JavaScript objects are maps from field names to values; an object spread
 * `{...a, ...b}` is the map union `a + b` (fields of `b` win).
 */
module Profile {
  import opened Wrappers
  import opened JsValue
  import opened JsText
  import opened Lists

  type Record = map<string, Value>

  /** The four kinds of edit dialog the page opens. */
  datatype Kind = UserInfo | Social | Education | Credits

  /** The open dialog: its kind and the id of the entry being edited, if any. */
  datatype Editing = Editing(kind: Kind, id: Option<Value>)

  datatype Editor = Editor(
    user: Record,
    social: seq<Record>,
    education: seq<Record>,
    editing: Option<Editing>,
    formValues: Record)

  /** `r.key`: undefined when the field is absent. */
  function Field(r: Record, key: string): Option<Value> {
    if key in r then Some(r[key]) else None
  }

  /** The page as first rendered: the sample user, two social profiles, one education entry, no dialog. */
  function InitialEditor(): Editor {
    Editor(
      map["name" := Str("Marios Kalogerakis"), "email" := Str("marios@example.com"),
          "credits" := Num(120), "location" := Str("Athens, GR"), "title" := Str("Product Designer")],
      [ map["id" := Num(1), "label" := Str("Twitter"), "value" := Str("@marios")],
        map["id" := Num(2), "label" := Str("LinkedIn"), "value" := Str("marios-link")] ],
      [ map["id" := Num(1), "school" := Str("Univ. of Athens"), "degree" := Str("MSc Computer Science")] ],
      None,
      map[])
  }

  // ---------------------------------------------------------------------
  // List helpers

  /** The entries with the given id under `===`. */
  predicate HasId(x: Record, id: Option<Value>) {
    StrictEquals(Field(x, "id"), id)
  }

  /** Every entry with the given id has the form's fields written over its own; the other entries stay as they are. */
  function MergeById(xs: seq<Record>, id: Option<Value>, f: Record): (r: seq<Record>)
    ensures |r| == |xs|
    ensures forall k :: 0 <= k < |xs| && HasId(xs[k], id) ==>
      (forall key :: key in f ==> key in r[k] && r[k][key] == f[key])
      && (forall key :: key in xs[k] && key !in f ==> key in r[k] && r[k][key] == xs[k][key])
      && r[k].Keys == xs[k].Keys + f.Keys
    ensures forall k :: 0 <= k < |xs| && !HasId(xs[k], id) ==> r[k] == xs[k]
  {
    seq(|xs|, k requires 0 <= k < |xs| => if HasId(xs[k], id) then xs[k] + f else xs[k])
  }

  /** The entries whose id differs from the given one, in their original order. */
  function RemoveById(xs: seq<Record>, id: Option<Value>): (r: seq<Record>)
    ensures forall k :: 0 <= k < |r| ==> !HasId(r[k], id) && r[k] in xs
    ensures forall k :: 0 <= k < |xs| && !HasId(xs[k], id) ==> xs[k] in r
  {
    Filter(xs, (x: Record) => !HasId(x, id))
  }

  // ---------------------------------------------------------------------
  // Operations

  /** `openEdit(kind, payload)`: the form starts as the payload, and the dialog remembers the payload's id. */
  function OpenEdit(e: Editor, kind: Kind, payload: Record): (r: Editor)
    ensures r.formValues == payload
    ensures r.editing == Some(Editing(kind, Field(payload, "id")))
    ensures r.user == e.user && r.social == e.social && r.education == e.education
  {
    e.(formValues := payload, editing := Some(Editing(kind, Field(payload, "id"))))
  }

  /** `closeEdit`: no dialog and an empty form. */
  function CloseEdit(e: Editor): (r: Editor)
    ensures r.editing.None? && r.formValues == map[]
    ensures r.user == e.user && r.social == e.social && r.education == e.education
  {
    e.(editing := None, formValues := map[])
  }

  /** The entry a save without an id appends: the form's fields, with the clock reading as id unless the form carries one. */
  function NewEntry(now: int, f: Record): Record {
    map["id" := Num(now)] + f
  }

  /**
   * `saveEdit`: with no dialog open nothing happens; otherwise the dialog's
   * change is applied to the user or to its list, and the dialog closes.
   */
  function SaveEdit(e: Editor, now: int): (r: Editor)
    ensures e.editing.None? ==> r == e
    ensures e.editing.Some? ==> r.editing.None? && r.formValues == map[]
  {
    match e.editing
    case None => e
    case Some(ed) =>
      var f := e.formValues;
      var applied :=
        match ed.kind
        case UserInfo => e.(user := e.user + f)
        case Social =>
          if Truthy(ed.id) then e.(social := MergeById(e.social, ed.id, f))
          else e.(social := e.social + [NewEntry(now, f)])
        case Education =>
          if Truthy(ed.id) then e.(education := MergeById(e.education, ed.id, f))
          else e.(education := e.education + [NewEntry(now, f)])
        case Credits =>
          var chosen := if Truthy(Field(f, "credits")) then Field(f, "credits") else Field(e.user, "credits");
          e.(user := e.user["credits" := ToNumber(chosen)]);
      CloseEdit(applied)
  }

  /** `removeSocial`: drops every social entry with the id. */
  function RemoveSocial(e: Editor, id: Option<Value>): (r: Editor)
    ensures r.social == RemoveById(e.social, id)
    ensures r.user == e.user && r.education == e.education
    ensures r.editing == e.editing && r.formValues == e.formValues
  {
    e.(social := RemoveById(e.social, id))
  }

  /** `removeEducation`: drops every education entry with the id. */
  function RemoveEducation(e: Editor, id: Option<Value>): (r: Editor)
    ensures r.education == RemoveById(e.education, id)
    ensures r.user == e.user && r.social == e.social
    ensures r.editing == e.editing && r.formValues == e.formValues
  {
    e.(education := RemoveById(e.education, id))
  }

  /** The first characters of the first two space-separated words of the name; an empty word contributes nothing. */
  function Initials(name: string): (r: string)
    ensures |r| <= 2
  {
    var words := Split(name, ' ');
    FirstChar(words[0]) + (if |words| > 1 then FirstChar(words[1]) else "")
  }

  /** What one space-separated piece contributes to the initials: its first character, or nothing when it is empty. */
  function FirstChar(w: string): (r: string)
    ensures |r| <= 1
    ensures w == [] ==> r == ""
    ensures w != [] ==> r == [w[0]]
  {
    if w == [] then "" else [w[0]]
  }

  /**
   * The avatar text for the current user: at most two characters, starting
   * with the name's own first character when the name starts with a
   * non-space; none when the name is not a string.
   */
  function Avatar(e: Editor): (r: Option<string>)
    ensures r.Some? <==> Field(e.user, "name").Some? && Field(e.user, "name").value.Str?
    ensures r.Some? ==> |r.value| <= 2
    ensures r.Some? ==> var n := Field(e.user, "name").value.s;
      n != "" && n[0] != ' ' ==> r.value != "" && r.value[0] == n[0]
  {
    match Field(e.user, "name")
    case Some(Str(n)) => Some(Initials(n))
    case _ => None
  }

  // ---------------------------------------------------------------------
  // Properties

  /** The list a social or education dialog edits. */
  function ListOf(e: Editor, kind: Kind): seq<Record>
    requires kind == Social || kind == Education
  {
    if kind == Social then e.social else e.education
  }

  /** The list the dialog does not edit. */
  function OtherList(e: Editor, kind: Kind): seq<Record>
    requires kind == Social || kind == Education
  {
    if kind == Social then e.education else e.social
  }

  /** A user edit overwrites exactly the fields the form holds and keeps every other field; the lists stay. */
  lemma SaveUserEdit(e: Editor, id: Option<Value>, now: int)
    requires e.editing == Some(Editing(UserInfo, id))
    ensures var r := SaveEdit(e, now);
      && (forall key :: key in e.formValues ==> key in r.user && r.user[key] == e.formValues[key])
      && (forall key :: key in e.user && key !in e.formValues ==> key in r.user && r.user[key] == e.user[key])
      && r.user.Keys == e.user.Keys + e.formValues.Keys
      && r.social == e.social && r.education == e.education
  {
  }

  /**
   * A social or education edit of an entry with a truthy id merges the form
   * into every entry with that id; the other entries, the length, the
   * order, the other list and the user stay.
   */
  lemma SaveListEditMerges(e: Editor, kind: Kind, id: Option<Value>, now: int)
    requires kind == Social || kind == Education
    requires e.editing == Some(Editing(kind, id)) && Truthy(id)
    ensures var r := SaveEdit(e, now);
      var before, after, f := ListOf(e, kind), ListOf(r, kind), e.formValues;
      && |after| == |before|
      && (forall k :: 0 <= k < |before| && HasId(before[k], id) ==>
            && (forall key :: key in f ==> key in after[k] && after[k][key] == f[key])
            && (forall key :: key in before[k] && key !in f ==> key in after[k] && after[k][key] == before[k][key]))
      && (forall k :: 0 <= k < |before| && !HasId(before[k], id) ==> after[k] == before[k])
      && OtherList(r, kind) == OtherList(e, kind) && r.user == e.user
  {
  }

  /**
   * A social or education edit without a truthy id appends one entry at the
   * end: the form's fields, with the id taken from the clock unless the form
   * carries its own.
   */
  lemma SaveListEditAppends(e: Editor, kind: Kind, id: Option<Value>, now: int)
    requires kind == Social || kind == Education
    requires e.editing == Some(Editing(kind, id)) && !Truthy(id)
    ensures var r := SaveEdit(e, now);
      var before, after, f := ListOf(e, kind), ListOf(r, kind), e.formValues;
      && |after| == |before| + 1
      && after[..|before|] == before
      && after[|before|].Keys == f.Keys + {"id"}
      && (forall key :: key in f ==> after[|before|][key] == f[key])
      && ("id" !in f ==> after[|before|]["id"] == Num(now))
      && OtherList(r, kind) == OtherList(e, kind) && r.user == e.user
  {
  }

  /**
   * A credits edit sets the credits to `Number` of the form's value when that
   * is truthy, and otherwise to `Number` of the old credits, which leaves a
   * numeric balance as it was; no other field changes.
   */
  lemma SaveCreditsEdit(e: Editor, id: Option<Value>, now: int)
    requires e.editing == Some(Editing(Credits, id))
    ensures var r := SaveEdit(e, now);
      var entered := Field(e.formValues, "credits");
      && "credits" in r.user
      && (Truthy(entered) && entered.value.Num? ==> r.user["credits"] == entered.value)
      && (Truthy(entered) && entered.value.Str? ==> r.user["credits"] == ParseNumber(entered.value.s))
      && (!Truthy(entered) && Field(e.user, "credits").Some? && e.user["credits"].Num? ==>
            r.user["credits"] == e.user["credits"])
      && (forall key :: key in e.user && key != "credits" ==> key in r.user && r.user[key] == e.user[key])
      && r.user.Keys == e.user.Keys + {"credits"}
      && r.social == e.social && r.education == e.education
  {
    var f := e.formValues;
    var chosen := if Truthy(Field(f, "credits")) then Field(f, "credits") else Field(e.user, "credits");
    assert SaveEdit(e, now).user == e.user["credits" := ToNumber(chosen)];
  }

  /** Opening the dialog on the user and saving without typing anything leaves the user as it was. */
  lemma UntouchedUserEditIsNoop(e: Editor, now: int)
    ensures SaveEdit(OpenEdit(e, UserInfo, e.user), now).user == e.user
  {
  }

  /** Opening the dialog on an entry and saving without typing anything leaves its list as it was. */
  lemma UntouchedEntryEditIsNoop(e: Editor, kind: Kind, x: Record, now: int)
    requires kind == Social || kind == Education
    requires Truthy(Field(x, "id"))
    requires forall k :: 0 <= k < |ListOf(e, kind)| && HasId(ListOf(e, kind)[k], Field(x, "id")) ==>
      ListOf(e, kind)[k] == x
    ensures ListOf(SaveEdit(OpenEdit(e, kind, x), now), kind) == ListOf(e, kind)
  {
    var xs := ListOf(e, kind);
    var r := ListOf(SaveEdit(OpenEdit(e, kind, x), now), kind);
    assert r == MergeById(xs, Field(x, "id"), x);
    forall k | 0 <= k < |xs|
      ensures r[k] == xs[k]
    {
      if HasId(xs[k], Field(x, "id")) {
        assert x + x == x;
      }
    }
  }

  /** Removing by id keeps the survivors in order, and an id no entry has changes nothing. */
  lemma RemoveByIdInOrder(a: seq<Record>, b: seq<Record>, id: Option<Value>)
    ensures RemoveById(a + b, id) == RemoveById(a, id) + RemoveById(b, id)
    ensures (forall k :: 0 <= k < |a| ==> !HasId(a[k], id)) ==> RemoveById(a, id) == a
  {
    FilterAppend(a, b, (x: Record) => !HasId(x, id));
    if forall k :: 0 <= k < |a| ==> !HasId(a[k], id) {
      FilterKeepsAll(a, (x: Record) => !HasId(x, id));
    }
  }

  /** Deleting the same entry twice, as a double click on its delete button does, is deleting it once. */
  lemma RemoveTwice(e: Editor, id: Option<Value>)
    ensures RemoveSocial(RemoveSocial(e, id), id) == RemoveSocial(e, id)
    ensures RemoveEducation(RemoveEducation(e, id), id) == RemoveEducation(e, id)
  {
    FilterIdempotent(e.social, (x: Record) => !HasId(x, id));
    FilterIdempotent(e.education, (x: Record) => !HasId(x, id));
  }

  /** A one-word name gives the word's first character. */
  lemma InitialsOfOneWord(a: string)
    requires ' ' !in a
    ensures Initials(a) == FirstChar(a)
  {
    SplitWithoutSeparator(a, ' ');
  }

  /** A name of two or more words gives the first characters of the first two words. */
  lemma InitialsOfWords(a: string, b: string, rest: string)
    requires ' ' !in a && ' ' !in b
    ensures Initials(a + " " + b) == FirstChar(a) + FirstChar(b)
    ensures Initials(a + " " + b + " " + rest) == FirstChar(a) + FirstChar(b)
  {
    SplitWord(a, b, ' ');
    SplitWithoutSeparator(b, ' ');
    SplitWord(a, b + " " + rest, ' ');
    SplitWord(b, rest, ' ');
    assert a + " " + b + " " + rest == a + [' '] + (b + [' '] + rest);
  }

  lemma SampleWordsHaveNoSpace()
    ensures ' ' !in "Marios" && ' ' !in "Kalogerakis"
  {
    var a, b := "Marios", "Kalogerakis";
    assert forall i :: 0 <= i < |a| ==> a[i] != ' ';
    assert forall i :: 0 <= i < |b| ==> b[i] != ' ';
  }

  /** The sample user's avatar reads "MK". */
  lemma InitialAvatar()
    ensures Avatar(InitialEditor()) == Some("MK")
  {
    var u := InitialEditor().user;
    assert Field(u, "name") == Some(Str("Marios Kalogerakis"));
    SampleInitials();
  }

  lemma SampleInitials()
    ensures Initials("Marios Kalogerakis") == "MK"
  {
    var a, b := "Marios", "Kalogerakis";
    SampleWordsHaveNoSpace();
    InitialsOfWords(a, b, "");
    assert a + " " + b == "Marios Kalogerakis";
  }
}
