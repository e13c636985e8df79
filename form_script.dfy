/**
 * The page script of the bulletin board's post form: the submit validator,
 * the character counters of the title and content fields, and the draft
 * that the create page keeps in the browser's local storage.
 *
 * A page is modelled by what the script reads and writes: the optional form
 * fields (None when the page has no such element), the local store as a map
 * from key to value, and the text and colour of the two counters.
 */
module FormScript {
  import opened Wrappers
  import Text

  const TitleKey := "draft_title"
  const ContentKey := "draft_content"
  const AuthorKey := "draft_author"
  const DraftKeys: set<string> := {TitleKey, ContentKey, AuthorKey}

  /** The only path on which the draft is loaded, saved and cleared. */
  const CreatePath := "/create"

  const TitleMissing := "タイトルを入力してください。\n"
  const AuthorMissing := "投稿者名を入力してください。\n"
  const ContentMissing := "内容を入力してください。\n"

  /** The title limit used when the field has no `maxlength` attribute. */
  const DefaultMaxLength: nat := 100
  const WarningColor := "#dc3545"
  const NeutralColor := "#666"

  datatype FieldName = TitleField | ContentField | AuthorField

  /** The value of field `f` among the three. */
  function Pick(f: FieldName, title: Option<string>, content: Option<string>, author: Option<string>): Option<string> {
    match f
    case TitleField => title
    case ContentField => content
    case AuthorField => author
  }

  /** The storage key under which the draft of field `f` is kept. */
  function Key(f: FieldName): (k: string)
    ensures k in DraftKeys
  {
    match f
    case TitleField => TitleKey
    case ContentField => ContentKey
    case AuthorField => AuthorKey
  }

  // ---------------------------------------------------------------------
  // Submit validator

  /**
   * A field fails validation when it is present and holds only whitespace;
   * a field missing from the page never fails.
   */
  predicate Blank(v: Option<string>)
    ensures Blank(v) ==> v.Some?
  {
    v.Some? && Text.AllSpace(v.value, Text.JsSpace)
  }

  /** Blankness is the validator's own test: the value is present and trims to the empty string. */
  lemma BlankIsTrimEmpty(v: Option<string>)
    ensures Blank(v) <==> v.Some? && Text.JsTrim(v.value) == []
  {
  }

  /** The position of a field in the validator's fixed order: title, author, content. */
  function Rank(f: FieldName): nat {
    match f
    case TitleField => 0
    case AuthorField => 1
    case ContentField => 2
  }

  function Message(f: FieldName): (m: string)
    ensures m != [] && m[|m| - 1] == '\n'
  {
    match f
    case TitleField => TitleMissing
    case AuthorField => AuthorMissing
    case ContentField => ContentMissing
  }

  /**
   * The fields that fail, each once, in the validator's order: a field is
   * listed exactly when it is present and blank.
   */
  function Failing(title: Option<string>, author: Option<string>, content: Option<string>): (r: seq<FieldName>)
    ensures forall f :: f in r <==> Blank(Pick(f, title, content, author))
    ensures forall i, j | 0 <= i < j < |r| :: Rank(r[i]) < Rank(r[j])
  {
    (if Blank(title) then [TitleField] else [])
    + (if Blank(author) then [AuthorField] else [])
    + (if Blank(content) then [ContentField] else [])
  }

  /** The alert text for a list of failing fields: their messages, one after another. */
  function Join(fs: seq<FieldName>): (m: string)
    ensures m == [] <==> fs == []
    ensures m != [] ==> m[|m| - 1] == '\n'
  {
    if fs == [] then "" else Message(fs[0]) + Join(fs[1..])
  }

  lemma {:induction false} JoinAppend(a: seq<FieldName>, b: seq<FieldName>)
    ensures Join(a + b) == Join(a) + Join(b)
  {
    if a == [] {
      assert a + b == b;
    } else {
      assert (a + b)[1..] == a[1..] + b;
      JoinAppend(a[1..], b);
    }
  }

  lemma JoinSnoc(fs: seq<FieldName>, f: FieldName)
    ensures Join(fs + [f]) == Join(fs) + Message(f)
  {
    JoinAppend(fs, [f]);
    assert Join([f]) == Message(f) + Join([]);
  }

  /** Reads an alert text back into the fields it complains about. */
  function Decode(s: string): seq<FieldName>
    decreases |s|
  {
    if TitleMissing <= s then [TitleField] + Decode(s[|TitleMissing|..])
    else if AuthorMissing <= s then [AuthorField] + Decode(s[|AuthorMissing|..])
    else if ContentMissing <= s then [ContentField] + Decode(s[|ContentMissing|..])
    else []
  }

  lemma DecodeMessage(f: FieldName, rest: string)
    ensures Decode(Message(f) + rest) == [f] + Decode(rest)
  {
    var m := Message(f);
    var s := m + rest;
    assert m <= s && s[0] == m[0];
    assert s[|m|..] == rest;
    // The three messages already differ in their first character.
    match f
    case TitleField =>
    case AuthorField =>
      assert s[0] != TitleMissing[0];
    case ContentField =>
      assert s[0] != TitleMissing[0] && s[0] != AuthorMissing[0];
  }

  /** The alert text names its failing fields unambiguously: decoding it gives them back. */
  lemma {:induction false} DecodeJoin(fs: seq<FieldName>)
    ensures Decode(Join(fs)) == fs
  {
    if fs != [] {
      DecodeMessage(fs[0], Join(fs[1..]));
      DecodeJoin(fs[1..]);
    }
  }

  // ---------------------------------------------------------------------
  // Character counters

  /** A counter element: its text and its colour. */
  datatype Counter = Counter(text: string, color: string)

  /** The title counter's text, "{length} / {max} 文字". */
  function TitleCounterText(length: nat, maxLength: nat): string {
    Text.Decimal(length) + " / " + Text.Decimal(maxLength) + " 文字"
  }

  /** The content counter's text, "{length} 文字". */
  function ContentCounterText(length: nat): string {
    Text.Decimal(length) + " 文字"
  }

  /** The title counter turns to the warning colour once the length exceeds 90% of the maximum. */
  function TitleColor(length: nat, maxLength: nat): (c: string)
    ensures c == WarningColor <==> length as real > maxLength as real * 0.9
    ensures c == WarningColor || c == NeutralColor
  {
    if 10 * length > 9 * maxLength then WarningColor else NeutralColor
  }

  /** The title counter's element: its text, and the warning colour beyond 90% of the maximum. */
  function TitleCounter(length: nat, maxLength: nat): (c: Counter)
    ensures c.text == TitleCounterText(length, maxLength)
    ensures c.color == WarningColor <==> length as real > maxLength as real * 0.9
  {
    Counter(TitleCounterText(length, maxLength), TitleColor(length, maxLength))
  }

  /** The title counter's text determines the length and the maximum it shows. */
  lemma TitleCounterTextInjective(l1: nat, m1: nat, l2: nat, m2: nat)
    requires TitleCounterText(l1, m1) == TitleCounterText(l2, m2)
    ensures l1 == l2 && m1 == m2
  {
    var d1, d2 := Text.Decimal(l1), Text.Decimal(l2);
    var x1, x2 := " / " + Text.Decimal(m1) + " 文字", " / " + Text.Decimal(m2) + " 文字";
    assert TitleCounterText(l1, m1) == d1 + x1;
    assert TitleCounterText(l2, m2) == d2 + x2;
    Text.NumeralPrefixUnique(d1, x1, d2, x2);
    Text.DecimalInjective(l1, l2);
    var e1, e2 := Text.Decimal(m1), Text.Decimal(m2);
    assert x1 == " / " + (e1 + " 文字") && x2 == " / " + (e2 + " 文字");
    assert x1[3..] == e1 + " 文字" && x2[3..] == e2 + " 文字";
    Text.NumeralPrefixUnique(e1, " 文字", e2, " 文字");
    Text.DecimalInjective(m1, m2);
  }

  /** The content counter's text determines the length it shows. */
  lemma ContentCounterTextInjective(l1: nat, l2: nat)
    requires ContentCounterText(l1) == ContentCounterText(l2)
    ensures l1 == l2
  {
    Text.NumeralPrefixUnique(Text.Decimal(l1), " 文字", Text.Decimal(l2), " 文字");
    Text.DecimalInjective(l1, l2);
  }

  // ---------------------------------------------------------------------
  // Draft persistence

  /** Two stores agree on key `k`: both lack it, or both hold the same value. */
  predicate SameAt(m1: map<string, string>, m2: map<string, string>, k: string) {
    (k in m1 <==> k in m2) && (k in m1 ==> m1[k] == m2[k])
  }

  /**
   * Loading one field: a present field takes the stored value when one
   * exists and is not empty; otherwise it keeps the value the server rendered.
   */
  function Restored(field: Option<string>, store: map<string, string>, key: string): (r: Option<string>)
    ensures r.Some? <==> field.Some?
    ensures r != field ==> key in store && store[key] != "" && r == Some(store[key])
    ensures field.Some? && key in store && store[key] != "" ==> r == Some(store[key])
  {
    if field.Some? && key in store && store[key] != "" then Some(store[key]) else field
  }

  /** Saving one field: a present field's value is written under its key. */
  function Stored(store: map<string, string>, key: string, field: Option<string>): (r: map<string, string>)
    ensures field.Some? ==> key in r && r[key] == field.value
    ensures field.None? ==> r == store
    ensures forall k | k != key :: SameAt(r, store, k)
  {
    if field.Some? then store[key := field.value] else store
  }

  /**
   * Saving the draft: each present field's key gets that field's current
   * value; the keys of absent fields and every other key keep what they had.
   */
  function SavedDraft(store: map<string, string>, title: Option<string>, content: Option<string>, author: Option<string>)
    : (r: map<string, string>)
    ensures forall k | k !in DraftKeys :: SameAt(r, store, k)
    ensures forall f :: Pick(f, title, content, author).Some? ==>
      Key(f) in r && r[Key(f)] == Pick(f, title, content, author).value
    ensures forall f :: Pick(f, title, content, author).None? ==> SameAt(r, store, Key(f))
  {
    Stored(Stored(Stored(store, TitleKey, title), ContentKey, content), AuthorKey, author)
  }

  /** Clearing the draft: the three keys are removed, every other entry stays. */
  function ClearedDraft(store: map<string, string>): (r: map<string, string>)
    ensures r.Keys == store.Keys - DraftKeys
    ensures forall k | k in r :: r[k] == store[k]
  {
    store - DraftKeys
  }

  /**
   * Saving and then loading on a later visit: a non-empty saved value comes
   * back into the field, an empty one leaves the rendered value, and a field
   * that was absent when saving loads whatever the store held before.
   */
  lemma DraftRoundTrip(store: map<string, string>, title: Option<string>, content: Option<string>,
                       author: Option<string>, f: FieldName, rendered: Option<string>)
    ensures var saved := Pick(f, title, content, author);
      Restored(rendered, SavedDraft(store, title, content, author), Key(f)) ==
        if saved.None? then Restored(rendered, store, Key(f))
        else if saved.value != "" && rendered.Some? then saved
        else rendered
  {
  }

  /** After the draft is cleared, loading keeps every rendered value. */
  lemma ClearedDraftLoadsNothing(store: map<string, string>, f: FieldName, rendered: Option<string>)
    ensures Restored(rendered, ClearedDraft(store), Key(f)) == rendered
  {
  }

  // ---------------------------------------------------------------------
  // The page

  /**
   * One page view. The script's page-ready handlers run in the constructor,
   * in the order the script registers them: first the counters are
   * installed, then (on the create page) the draft is loaded. `Input` is an
   * `input` event on a field and `Submit` a submit event on the form.
   */
  class Page {
    /** `window.location.pathname` */
    const path: string
    /** Whether the page has an element of class `post-form`. */
    const hasForm: bool
    /** The title's `maxlength` attribute, or 100 when there is none. */
    const maxLength: nat
    var title: Option<string>
    var content: Option<string>
    var author: Option<string>
    /** `localStorage` */
    var store: map<string, string>
    var titleCounter: Option<Counter>
    var contentCounter: Option<string>

    /** The draft component is active only on the create page with a form. */
    predicate DraftEnabled() {
      hasForm && path == CreatePath
    }

    function Value(f: FieldName): Option<string>
      reads this
    {
      Pick(f, title, content, author)
    }

    /** Each counter exists exactly when its field does. */
    ghost predicate Valid()
      reads this
    {
      (titleCounter.Some? <==> title.Some?) && (contentCounter.Some? <==> content.Some?)
    }

    constructor (path: string, hasForm: bool, maxLengthAttr: Option<nat>,
                 title: Option<string>, content: Option<string>, author: Option<string>,
                 store: map<string, string>)
      ensures Valid()
      ensures this.path == path && this.hasForm == hasForm && maxLength == maxLengthAttr.GetOr(DefaultMaxLength)
      ensures this.store == store
      ensures titleCounter == if title.Some? then Some(TitleCounter(|title.value|, maxLength)) else None
      ensures contentCounter == if content.Some? then Some(ContentCounterText(|content.value|)) else None
      ensures DraftEnabled() ==>
        && this.title == Restored(title, store, TitleKey)
        && this.content == Restored(content, store, ContentKey)
        && this.author == Restored(author, store, AuthorKey)
      ensures !DraftEnabled() ==> this.title == title && this.content == content && this.author == author
    {
      this.path := path;
      this.hasForm := hasForm;
      this.maxLength := maxLengthAttr.GetOr(DefaultMaxLength);
      this.title := title;
      this.content := content;
      this.author := author;
      this.store := store;
      titleCounter := None;
      contentCounter := None;
      new;
      InstallCounters();
      if DraftEnabled() {
        LoadDraft();
      }
    }

    /** Creates a counter beside each present field and shows its current length. */
    method InstallCounters()
      modifies this
      ensures titleCounter == if title.Some? then Some(TitleCounter(|title.value|, maxLength)) else None
      ensures contentCounter == if content.Some? then Some(ContentCounterText(|content.value|)) else None
      ensures title == old(title) && content == old(content) && author == old(author) && store == old(store)
    {
      titleCounter := None;
      contentCounter := None;
      if title.Some? {
        UpdateTitleCounter();
      }
      if content.Some? {
        UpdateContentCounter();
      }
    }

    /** Shows the title's length against the maximum, in the warning colour above 90%. */
    method UpdateTitleCounter()
      requires title.Some?
      modifies this`titleCounter
      ensures titleCounter == Some(TitleCounter(|title.value|, maxLength))
    {
      var length := |title.value|;
      var text := Text.Decimal(length) + " / " + Text.Decimal(maxLength) + " 文字";
      var color := if 10 * length > 9 * maxLength then WarningColor else NeutralColor;
      titleCounter := Some(Counter(text, color));
    }

    /** Shows the content's length. */
    method UpdateContentCounter()
      requires content.Some?
      modifies this`contentCounter
      ensures contentCounter == Some(ContentCounterText(|content.value|))
    {
      contentCounter := Some(Text.Decimal(|content.value|) + " 文字");
    }

    /** Copies each non-empty stored draft value into its present field. */
    method LoadDraft()
      requires DraftEnabled()
      modifies this`title, this`content, this`author
      ensures title == Restored(old(title), store, TitleKey)
      ensures content == Restored(old(content), store, ContentKey)
      ensures author == Restored(old(author), store, AuthorKey)
    {
      if title.Some? && TitleKey in store && store[TitleKey] != "" {
        title := Some(store[TitleKey]);
      }
      if content.Some? && ContentKey in store && store[ContentKey] != "" {
        content := Some(store[ContentKey]);
      }
      if author.Some? && AuthorKey in store && store[AuthorKey] != "" {
        author := Some(store[AuthorKey]);
      }
    }

    /** Writes every present field's current value under its key. */
    method SaveDraft()
      requires DraftEnabled()
      modifies this`store
      ensures store == SavedDraft(old(store), title, content, author)
    {
      if title.Some? {
        store := store[TitleKey := title.value];
      }
      if content.Some? {
        store := store[ContentKey := content.value];
      }
      if author.Some? {
        store := store[AuthorKey := author.value];
      }
    }

    /** Removes the three draft keys. */
    method ClearDraft()
      requires DraftEnabled()
      modifies this`store
      ensures store == ClearedDraft(old(store))
    {
      store := store - {TitleKey};
      store := store - {ContentKey};
      store := store - {AuthorKey};
    }

    /**
     * The submit validator: the submit is cancelled exactly when a present
     * field among title, author and content is blank, and then the alert
     * lists one message per blank field in that order. Nothing changes.
     */
    method CheckSubmit() returns (cancelled: bool, alertText: Option<string>)
      ensures cancelled <==> Blank(title) || Blank(author) || Blank(content)
      ensures cancelled <==> Failing(title, author, content) != []
      ensures alertText == if cancelled then Some(Join(Failing(title, author, content))) else None
    {
      var isValid := true;
      var errorMessage := "";
      ghost var failing: seq<FieldName> := [];
      if title.Some? && Text.JsTrim(title.value) == "" {
        isValid := false;
        JoinSnoc(failing, TitleField);
        errorMessage := errorMessage + Message(TitleField);
        failing := failing + [TitleField];
      }
      assert failing == if Blank(title) then [TitleField] else [];
      assert errorMessage == Join(failing) && (isValid <==> failing == []);
      ghost var checked := failing;
      if author.Some? && Text.JsTrim(author.value) == "" {
        isValid := false;
        JoinSnoc(failing, AuthorField);
        errorMessage := errorMessage + Message(AuthorField);
        failing := failing + [AuthorField];
      }
      assert failing == checked + if Blank(author) then [AuthorField] else [];
      assert errorMessage == Join(failing) && (isValid <==> failing == []);
      checked := failing;
      if content.Some? && Text.JsTrim(content.value) == "" {
        isValid := false;
        JoinSnoc(failing, ContentField);
        errorMessage := errorMessage + Message(ContentField);
        failing := failing + [ContentField];
      }
      assert failing == checked + if Blank(content) then [ContentField] else [];
      assert errorMessage == Join(failing) && (isValid <==> failing == []);
      cancelled := !isValid;
      alertText := if cancelled then Some(errorMessage) else None;
    }

    /**
     * The user changes field `f`: its counter, if it has one, shows the new
     * length, and on the create page the whole draft is saved.
     */
    method Input(f: FieldName, v: string)
      requires Valid() && Value(f).Some?
      modifies this
      ensures Valid()
      ensures Value(f) == Some(v)
      ensures forall g | g != f :: Value(g) == old(Value(g))
      ensures titleCounter == if f == TitleField then Some(TitleCounter(|v|, maxLength)) else old(titleCounter)
      ensures contentCounter == if f == ContentField then Some(ContentCounterText(|v|)) else old(contentCounter)
      ensures store == if DraftEnabled() then SavedDraft(old(store), title, content, author) else old(store)
    {
      match f {
        case TitleField =>
          title := Some(v);
          UpdateTitleCounter();
        case ContentField =>
          content := Some(v);
          UpdateContentCounter();
        case AuthorField =>
          author := Some(v);
      }
      if DraftEnabled() {
        SaveDraft();
      }
    }

    /**
     * The user submits the form: the validator runs first, then on the
     * create page the draft is cleared, whether or not the validator
     * cancelled the submit.
     */
    method Submit() returns (cancelled: bool, alertText: Option<string>)
      requires hasForm
      modifies this
      ensures cancelled <==> Blank(old(title)) || Blank(old(author)) || Blank(old(content))
      ensures alertText == if cancelled then Some(Join(Failing(old(title), old(author), old(content)))) else None
      ensures title == old(title) && content == old(content) && author == old(author)
      ensures titleCounter == old(titleCounter) && contentCounter == old(contentCounter)
      ensures store == if DraftEnabled() then ClearedDraft(old(store)) else old(store)
    {
      cancelled, alertText := CheckSubmit();
      if DraftEnabled() {
        ClearDraft();
      }
    }
  }

  // ---------------------------------------------------------------------
  // Scenarios over several page views, each sharing the store with the next

  /**
   * Typing a non-empty title on the create page and reloading brings the
   * title back; submitting and reloading again leaves the rendered title.
   */
  method DraftAcrossVisits(typed: string, rendered: string, store: map<string, string>)
    returns (afterReload: Option<string>, afterSubmit: Option<string>)
    requires typed != ""
    ensures afterReload == Some(typed)
    ensures afterSubmit == Some(rendered)
  {
    var first := new Page(CreatePath, true, None, Some(rendered), Some(""), Some(""), store);
    first.Input(TitleField, typed);
    var second := new Page(CreatePath, true, None, Some(rendered), Some(""), Some(""), first.store);
    afterReload := second.title;
    var _, _ := second.Submit();
    var third := new Page(CreatePath, true, None, Some(rendered), Some(""), Some(""), second.store);
    afterSubmit := third.title;
  }

  /**
   * On any page other than the create page, loading, typing and submitting
   * leave the store as it was.
   */
  method OtherPagesKeepStore(path: string, f: FieldName, v: string, store: map<string, string>)
    returns (after: map<string, string>)
    requires path != CreatePath
    ensures after == store
  {
    var page := new Page(path, true, None, Some(""), Some(""), Some(""), store);
    page.Input(f, v);
    var _, _ := page.Submit();
    after := page.store;
  }

  /**
   * A submit that the validator cancels still clears the draft: with a saved
   * content draft and a blank title on the create page, the submit is
   * cancelled for the title alone and the store is left empty.
   */
  method CancelledSubmitClearsDraft() returns (cancelled: bool, alertText: Option<string>, after: map<string, string>)
    ensures cancelled && alertText == Some(TitleMissing)
    ensures after == map[]
  {
    var page := new Page(CreatePath, true, None, Some(" "), Some(""), Some("名前"), map[ContentKey := "下書き"]);
    assert page.content == Some("下書き");
    assert !Blank(page.content) by { assert "下書き"[0] !in Text.JsSpace; }
    assert !Blank(page.author) by { assert "名前"[0] !in Text.JsSpace; }
    assert Blank(page.title);
    assert Failing(page.title, page.author, page.content) == [TitleField] + [] + [];
    assert Join([TitleField]) == Message(TitleField) + Join([]);
    ghost var failing := Failing(page.title, page.author, page.content);
    cancelled, alertText := page.Submit();
    assert cancelled;
    assert alertText == Some(Join(failing));
    assert Join(failing) == TitleMissing;
    after := page.store;
  }

  /**
   * The counters are installed before the draft is loaded, so after a
   * draft is restored the title counter still shows the rendered value's
   * length until the next input event.
   */
  method CounterAfterDraftLoad() returns (title: Option<string>, counter: Option<Counter>)
    ensures title == Some("abc")
    ensures counter == Some(Counter("0 / 100 文字", NeutralColor))
  {
    var page := new Page(CreatePath, true, None, Some(""), Some(""), Some(""), map[TitleKey := "abc"]);
    title, counter := page.title, page.titleCounter;
    assert Text.Decimal(100) == "100" by {
      assert Text.Decimal(10) == Text.Decimal(1) + [Text.DigitChar(0)];
    }
    assert Text.Decimal(0) == "0";
    assert TitleCounterText(0, 100) == "0 / 100 文字";
  }

  /** The counter of a five-character title with limit 10 reads "5 / 10 文字" in the neutral colour; at ten characters it turns to the warning colour. */
  lemma CounterSamples()
    ensures TitleCounter(5, 10) == Counter("5 / 10 文字", NeutralColor)
    ensures TitleColor(10, 10) == WarningColor && TitleColor(9, 10) == NeutralColor
  {
    assert Text.Decimal(10) == Text.Decimal(1) + [Text.DigitChar(0)];
  }
}
