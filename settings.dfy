/**
 * `SettingsViewController`: the settings list (language, quality, log in
 * or out, about), the two choice screens it opens, and what it saves in
 * the iCloud key-value store.  The store is an object holding a map from
 * key to string list; the language file and the login check are
 * parameters; screen text holds the localisation key, not its
 * translation.
 */
module Settings {
  import opened Wrappers
  import opened ListViewSelections
  import opened MultipleChoiceLists
  import opened UpdateFlags

  const TWITCH_LANG_KEY: string := "twitch_langs"
  const TWITCH_QUALITY_KEY: string := "twitch_quality"

  const TITLE_ALL: string := "title.all"
  const TITLE_MULTIPLE: string := "title.multiple"
  const TITLE_AUTOMATIC: string := "title.automatic"
  const TITLE_LOG_IN: string := "title.log_in"
  const TITLE_LOG_OUT: string := "title.log_out"

  /** `NSUbiquitousKeyValueStore.default`, reduced to its string-list entries. */
  class CloudStore {
    var values: map<string, seq<string>>

    constructor ()
      ensures values == map[]
    {
      values := map[];
    }

    /** `array(forKey:) as? Array<String>`. */
    function Lookup(key: string): (r: Option<seq<string>>)
      reads this
      ensures r.Some? <==> key in values
      ensures r.Some? ==> r.value == values[key]
    {
      if key in values then Some(values[key]) else None
    }

    /** `set(_:forKey:)`. */
    method Set(key: string, list: seq<string>)
      modifies this
      ensures values == old(values)[key := list]
    {
      values := values[key := list];
    }
  }

  // ---------------------------------------------------------------------
  // The choice lists

  /** The quality choices, in the order `loadQualityValues` appends them. */
  function QualityChoices(): seq<ListViewSelection> {
    [ListViewSelection("Automatic", Some("auto")), ListViewSelection("1080p", Some("1080p")),
     ListViewSelection("720p", Some("720p")), ListViewSelection("480p", Some("480p")),
     ListViewSelection("240p", Some("240p"))]
  }

  /** Every quality choice has a code, and no two share one, so the choice screen's rules apply to it. */
  lemma QualityChoicesUnique()
    ensures |QualityChoices()| == 5
    ensures forall k :: 0 <= k < |QualityChoices()| ==> QualityChoices()[k].data.Some?
    ensures UniqueCodes(QualityChoices())
  {
  }

  /** A language file entry is kept when it has both a `name` and a `code`. */
  predicate Complete(lang: map<string, string>) {
    "name" in lang && "code" in lang
  }

  /** The choice a complete entry becomes. */
  function LangEntry(lang: map<string, string>): ListViewSelection
    requires Complete(lang)
  {
    ListViewSelection(lang["name"], Some(lang["code"]))
  }

  /** The choices the entries of the language file give, in file order. */
  function LangEntries(langs: seq<map<string, string>>): seq<ListViewSelection> {
    if langs == [] then []
    else
      var last := langs[|langs| - 1];
      LangEntries(langs[..|langs| - 1]) + (if Complete(last) then [LangEntry(last)] else [])
  }

  /** The choices of the first `j` entries are a prefix of the choices of the whole file. */
  lemma {:induction false} LangEntriesPrefix(langs: seq<map<string, string>>, j: nat)
    requires j <= |langs|
    ensures |LangEntries(langs[..j])| <= |LangEntries(langs)|
    ensures LangEntries(langs)[..|LangEntries(langs[..j])|] == LangEntries(langs[..j])
  {
    if j < |langs| {
      var init := langs[..|langs| - 1];
      assert init[..j] == langs[..j];
      LangEntriesPrefix(init, j);
    } else {
      assert langs[..j] == langs;
    }
  }

  /** Every complete entry of the file becomes a choice, placed right after the choices of the entries before it. */
  lemma LangEntryPlaced(langs: seq<map<string, string>>, k: nat)
    requires k < |langs| && Complete(langs[k])
    ensures |LangEntries(langs[..k])| < |LangEntries(langs)|
    ensures LangEntries(langs)[|LangEntries(langs[..k])|] == LangEntry(langs[k])
  {
    assert langs[..k + 1][..k] == langs[..k];
    LangEntriesPrefix(langs, k + 1);
  }

  /** Every choice comes from a complete entry of the file. */
  lemma {:induction false} LangEntryFromFile(langs: seq<map<string, string>>, i: nat)
    requires i < |LangEntries(langs)|
    ensures exists k :: 0 <= k < |langs| && Complete(langs[k]) && LangEntries(langs)[i] == LangEntry(langs[k])
  {
    var n := |langs|;
    var init := langs[..n - 1];
    if i < |LangEntries(init)| {
      LangEntryFromFile(init, i);
      var k :| 0 <= k < |init| && Complete(init[k]) && LangEntries(init)[i] == LangEntry(init[k]);
      assert init[k] == langs[k];
    } else {
      assert LangEntries(langs)[i] == LangEntry(langs[n - 1]);
    }
  }

  /** The language choices: "All" first, then the file's entries. */
  function LangChoices(langs: seq<map<string, string>>): (r: seq<ListViewSelection>)
    ensures |r| > 0 && r[0] == ListViewSelection("All", Some("all"))
    ensures r[1..] == LangEntries(langs)
  {
    [ListViewSelection("All", Some("all"))] + LangEntries(langs)
  }

  // ---------------------------------------------------------------------
  // Preselection and saving

  /** The choices, in list order, whose code is one of `codes`. */
  function Matching(choices: seq<ListViewSelection>, codes: seq<string>): seq<ListViewSelection> {
    if choices == [] then []
    else
      var last := choices[|choices| - 1];
      Matching(choices[..|choices| - 1], codes) + (if last.data.Some? && last.data.value in codes then [last] else [])
  }

  /** A choice is matched exactly when it is one of the choices and its code is listed. */
  lemma {:induction false} MatchingMembers(choices: seq<ListViewSelection>, codes: seq<string>, x: ListViewSelection)
    ensures x in Matching(choices, codes) <==> x in choices && x.data.Some? && x.data.value in codes
  {
    if choices != [] {
      var init := choices[..|choices| - 1];
      MatchingMembers(init, codes, x);
      assert choices == init + [choices[|choices| - 1]];
    }
  }

  /** The index of the first choice, in list order, whose code is one of `codes`. */
  function FirstStored(choices: seq<ListViewSelection>, codes: seq<string>): (r: Option<nat>)
    ensures r.None? <==> forall k :: 0 <= k < |choices| ==> choices[k].data.None? || choices[k].data.value !in codes
    ensures r.Some? ==> r.value < |choices| && choices[r.value].data.Some? && choices[r.value].data.value in codes
    ensures r.Some? ==> forall k :: 0 <= k < r.value ==> choices[k].data.None? || choices[k].data.value !in codes
  {
    if choices == [] then None
    else if choices[0].data.Some? && choices[0].data.value in codes then Some(0)
    else
      match FirstStored(choices[1..], codes)
      case None => None
      case Some(i) => Some(i + 1)
  }

  /** The codes of the choices that have one, in order. */
  function Codes(choices: seq<ListViewSelection>): seq<string> {
    if choices == [] then []
    else
      var last := choices[|choices| - 1];
      Codes(choices[..|choices| - 1]) + (if last.data.Some? then [last.data.value] else [])
  }

  /** A code is saved exactly when some choice has it. */
  lemma {:induction false} CodesMembers(choices: seq<ListViewSelection>, code: string)
    ensures code in Codes(choices) <==> HasCode(choices, code)
  {
    if choices != [] {
      var n := |choices|;
      var init := choices[..n - 1];
      CodesMembers(init, code);
      if HasCode(init, code) {
        var k :| 0 <= k < n - 1 && init[k].data == Some(code);
        assert choices[k] == init[k];
      }
    }
  }

  /**
   * What the language screen preselects: nothing when no languages are
   * stored, otherwise every choice whose code is stored, or the first
   * choice ("All") when none is.
   */
  function LanguagePreselection(choices: seq<ListViewSelection>, stored: Option<seq<string>>): (r: seq<ListViewSelection>)
    requires stored.Some? ==> |choices| > 0
    ensures stored.None? ==> r == []
    ensures stored.Some? && Matching(choices, stored.value) != [] ==> r == Matching(choices, stored.value)
    ensures stored.Some? && Matching(choices, stored.value) == [] ==> r == [choices[0]]
  {
    if stored.None? then []
    else
      var m := Matching(choices, stored.value);
      if m != [] then m else [choices[0]]
  }

  /**
   * What the quality screen preselects: nothing when no quality is
   * stored, otherwise the first choice whose code is stored, or the first
   * choice ("Automatic") when none is.
   */
  function QualityPreselection(choices: seq<ListViewSelection>, stored: Option<seq<string>>): (r: seq<ListViewSelection>)
    requires stored.Some? ==> |choices| > 0
    ensures stored.None? ==> r == []
    ensures stored.Some? ==> |r| == 1
    ensures stored.Some? && FirstStored(choices, stored.value).Some? ==> r == [choices[FirstStored(choices, stored.value).value]]
    ensures stored.Some? && FirstStored(choices, stored.value).None? ==> r == [choices[0]]
  {
    if stored.None? then []
    else
      match FirstStored(choices, stored.value)
      case Some(i) => [choices[i]]
      case None => [choices[0]]
  }

  /**
   * Saving languages and opening the language screen again: a choice
   * that has a code comes back selected exactly when a saved selection
   * had that code.
   */
  lemma SavedLanguagesPreselected(choices: seq<ListViewSelection>, saved: seq<ListViewSelection>, row: nat)
    requires row < |choices| && choices[row].data.Some?
    ensures Matching(choices, Codes(saved)) != [] ==>
      (choices[row] in LanguagePreselection(choices, Some(Codes(saved))) <==> HasCode(saved, choices[row].data.value))
    ensures Matching(choices, Codes(saved)) == [] ==>
      !HasCode(saved, choices[row].data.value) && LanguagePreselection(choices, Some(Codes(saved))) == [choices[0]]
  {
    MatchingMembers(choices, Codes(saved), choices[row]);
    CodesMembers(saved, choices[row].data.value);
  }

  /**
   * Saving a quality and opening the quality screen again preselects
   * that same choice, when the choices' codes are distinct.
   */
  lemma {:induction false} SavedQualityPreselected(choices: seq<ListViewSelection>, row: nat)
    requires row < |choices| && choices[row].data.Some? && UniqueCodes(choices)
    ensures QualityPreselection(choices, Some([choices[row].data.value])) == [choices[row]]
  {
    var code := choices[row].data.value;
    assert choices[row].data.value in [code];
  }

  /**
   * `setDetails`, language half: one stored code shows "All", any other
   * number of codes "Multiple", and no stored entry "All".
   */
  function LangDetail(stored: Option<seq<string>>): (detail: string)
    ensures detail == TITLE_ALL <==> stored.None? || |stored.value| == 1
    ensures detail == TITLE_MULTIPLE <==> stored.Some? && |stored.value| != 1
  {
    if stored.Some? then
      if |stored.value| == 1 then TITLE_ALL else TITLE_MULTIPLE
    else TITLE_ALL
  }

  /** The label of row 2 for a login state. */
  function LoginLabel(isLoggedIn: bool): (caption: string)
    ensures caption == TITLE_LOG_OUT <==> isLoggedIn
    ensures caption == TITLE_LOG_IN <==> !isLoggedIn
  {
    if isLoggedIn then TITLE_LOG_OUT else TITLE_LOG_IN
  }

  /** What selecting a row of the settings list opens. */
  datatype RowAction = ShowLanguageScreen | ShowQualityScreen | LogInOrOut | ShowAbout | Unhandled

  /** `didSelectRowAt`: rows 0 to 3 in order, any other row only logged. */
  function ActionOfRow(row: int): (a: RowAction)
    ensures a == Unhandled <==> row < 0 || row > 3
    ensures a == ShowLanguageScreen <==> row == 0
    ensures a == ShowQualityScreen <==> row == 1
    ensures a == LogInOrOut <==> row == 2
    ensures a == ShowAbout <==> row == 3
  {
    if row == 0 then ShowLanguageScreen
    else if row == 1 then ShowQualityScreen
    else if row == 2 then LogInOrOut
    else if row == 3 then ShowAbout
    else Unhandled
  }

  /** What `logInOrLogOut` does after the login check. */
  datatype LoginAction = LogOut | PresentLogin

  // ---------------------------------------------------------------------
  // The controller

  class SettingsScreen {
    var mainSettings: seq<string>
    var langDetail: string
    var qualityDetail: string
    var langSelections: seq<ListViewSelection>
    var qualitySelections: seq<ListViewSelection>
    const cloud: CloudStore
    const flags: Flags

    /** The list always has its four rows. */
    predicate Valid()
      reads this
    {
      |mainSettings| == 4
    }

    constructor (cloud: CloudStore, flags: Flags)
      ensures Valid()
      ensures mainSettings == ["title.stream_language", "title.stream_quality", TITLE_LOG_IN, "title.about"]
      ensures langDetail == "" && qualityDetail == "" && langSelections == [] && qualitySelections == []
      ensures this.cloud == cloud && this.flags == flags
    {
      mainSettings := ["title.stream_language", "title.stream_quality", TITLE_LOG_IN, "title.about"];
      langDetail := "";
      qualityDetail := "";
      langSelections := [];
      qualitySelections := [];
      this.cloud := cloud;
      this.flags := flags;
    }

    /** `loadQualityValues`. */
    method LoadQualityValues()
      modifies this
      ensures qualitySelections == QualityChoices()
      ensures mainSettings == old(mainSettings) && langSelections == old(langSelections)
      ensures langDetail == old(langDetail) && qualityDetail == old(qualityDetail)
    {
      var selections := [];
      selections := selections + [ListViewSelection("Automatic", Some("auto"))];
      selections := selections + [ListViewSelection("1080p", Some("1080p"))];
      selections := selections + [ListViewSelection("720p", Some("720p"))];
      selections := selections + [ListViewSelection("480p", Some("480p"))];
      selections := selections + [ListViewSelection("240p", Some("240p"))];
      qualitySelections := selections;
    }

    /**
     * `loadLangValues`, given the parsed language file (nil when the file
     * is missing or cannot be read, which leaves the choices as they were).
     */
    method LoadLangValues(file: Option<seq<map<string, string>>>)
      modifies this
      ensures langSelections == if file.Some? then LangChoices(file.value) else old(langSelections)
      ensures mainSettings == old(mainSettings) && qualitySelections == old(qualitySelections)
      ensures langDetail == old(langDetail) && qualityDetail == old(qualityDetail)
    {
      if file.Some? {
        var twitchLang := file.value;
        var selections := [ListViewSelection("All", Some("all"))];
        for i := 0 to |twitchLang|
          invariant selections == [ListViewSelection("All", Some("all"))] + LangEntries(twitchLang[..i])
        {
          var lang := twitchLang[i];
          assert twitchLang[..i + 1][..i] == twitchLang[..i];
          if "name" in lang && "code" in lang {
            selections := selections + [ListViewSelection(lang["name"], Some(lang["code"]))];
          }
        }
        assert twitchLang[..|twitchLang|] == twitchLang;
        langSelections := selections;
      }
    }

    /** `updateLoginState`, once the login check has answered. */
    method UpdateLoginState(isLoggedIn: bool)
      requires Valid()
      modifies this
      ensures Valid()
      ensures mainSettings == old(mainSettings)[2 := LoginLabel(isLoggedIn)]
      ensures langSelections == old(langSelections) && qualitySelections == old(qualitySelections)
      ensures langDetail == old(langDetail) && qualityDetail == old(qualityDetail)
    {
      if isLoggedIn {
        mainSettings := mainSettings[2 := TITLE_LOG_OUT];
      } else {
        mainSettings := mainSettings[2 := TITLE_LOG_IN];
      }
    }

    /**
     * `logInOrLogOut`, once the login check has answered: a signed-in
     * user is logged out and row 2 offers logging in again; otherwise the
     * login screen is presented, whose dismissal runs `UpdateLoginState`.
     */
    method LogInOrLogOut(isLoggedIn: bool) returns (action: LoginAction)
      requires Valid()
      modifies this
      ensures Valid()
      ensures action == (if isLoggedIn then LogOut else PresentLogin)
      ensures mainSettings == if isLoggedIn then old(mainSettings)[2 := TITLE_LOG_IN] else old(mainSettings)
      ensures langSelections == old(langSelections) && qualitySelections == old(qualitySelections)
      ensures langDetail == old(langDetail) && qualityDetail == old(qualityDetail)
    {
      if isLoggedIn {
        action := LogOut;
        mainSettings := mainSettings[2 := TITLE_LOG_IN];
      } else {
        action := PresentLogin;
      }
    }

    /**
     * `setDetails`: the language detail from the stored languages; the
     * quality detail becomes "Automatic" only when no quality is stored
     * and is otherwise left as it was.
     */
    method SetDetails()
      modifies this
      ensures langDetail == LangDetail(cloud.Lookup(TWITCH_LANG_KEY))
      ensures qualityDetail == if TWITCH_QUALITY_KEY in cloud.values then old(qualityDetail) else TITLE_AUTOMATIC
      ensures mainSettings == old(mainSettings)
      ensures langSelections == old(langSelections) && qualitySelections == old(qualitySelections)
    {
      var langs := cloud.Lookup(TWITCH_LANG_KEY);
      if langs.Some? {
        if |langs.value| == 1 {
          langDetail := TITLE_ALL;
        } else {
          langDetail := TITLE_MULTIPLE;
        }
      } else {
        langDetail := TITLE_ALL;
      }
      var quality := cloud.Lookup(TWITCH_QUALITY_KEY);
      if quality.None? {
        qualityDetail := TITLE_AUTOMATIC;
      }
    }

    /**
     * `saveLanguageSelection`: the codes of the selections that have one
     * are stored in order, the details are refreshed, and the popular
     * grid is told to reload.
     */
    method SaveLanguageSelection(selections: seq<ListViewSelection>)
      modifies this, cloud, flags
      ensures cloud.values == old(cloud.values)[TWITCH_LANG_KEY := Codes(selections)]
      ensures langDetail == LangDetail(Some(Codes(selections)))
      ensures qualityDetail == if TWITCH_QUALITY_KEY in cloud.values then old(qualityDetail) else TITLE_AUTOMATIC
      ensures flags.needsPopularUpdate
      ensures flags.needsFollowsUpdate == old(flags.needsFollowsUpdate)
      ensures flags.needsGameUpdate == old(flags.needsGameUpdate) && flags.needsCommunityUpdate == old(flags.needsCommunityUpdate)
      ensures mainSettings == old(mainSettings)
      ensures langSelections == old(langSelections) && qualitySelections == old(qualitySelections)
    {
      var langs := [];
      for i := 0 to |selections|
        invariant langs == Codes(selections[..i])
      {
        assert selections[..i + 1][..i] == selections[..i];
        if selections[i].data.Some? {
          langs := langs + [selections[i].data.value];
        }
      }
      assert selections[..|selections|] == selections;
      cloud.Set(TWITCH_LANG_KEY, langs);
      SetDetails();
      flags.needsPopularUpdate := true;
    }

    /**
     * `saveQualitySelection`: the store is written only for exactly one
     * selection that has a code; the details are refreshed either way.
     */
    method SaveQualitySelection(selections: seq<ListViewSelection>)
      modifies this, cloud
      ensures |selections| == 1 && selections[0].data.Some? ==>
        cloud.values == old(cloud.values)[TWITCH_QUALITY_KEY := [selections[0].data.value]]
      ensures !(|selections| == 1 && selections[0].data.Some?) ==> cloud.values == old(cloud.values)
      ensures langDetail == LangDetail(cloud.Lookup(TWITCH_LANG_KEY))
      ensures qualityDetail == if TWITCH_QUALITY_KEY in cloud.values then old(qualityDetail) else TITLE_AUTOMATIC
      ensures mainSettings == old(mainSettings)
      ensures langSelections == old(langSelections) && qualitySelections == old(qualitySelections)
    {
      if |selections| == 1 {
        if selections[0].data.Some? {
          cloud.Set(TWITCH_QUALITY_KEY, [selections[0].data.value]);
        }
      }
      SetDetails();
    }

    /**
     * `showLanguageSelectionScreen`: the language choices, with "All"
     * excluding the others, the stored languages preselected, and the
     * save callback installed.  The source indexes choice 0 when nothing
     * stored matches, so a stored entry needs a non-empty choice list.
     */
    method ShowLanguageSelectionScreen() returns (screen: MultipleChoiceList)
      requires TWITCH_LANG_KEY in cloud.values ==> |langSelections| > 0
      ensures fresh(screen)
      ensures screen.selections == langSelections && screen.firstExclusive && !screen.singleSelection
      ensures screen.enabledSelections == LanguagePreselection(langSelections, cloud.Lookup(TWITCH_LANG_KEY))
      ensures screen.selectionCallback == Some(MultipleChoiceLists.SaveLanguageSelection)
    {
      screen := new MultipleChoiceList();
      screen.selections := langSelections;
      screen.firstExclusive := true;
      var enabledLangs := cloud.Lookup(TWITCH_LANG_KEY);
      if enabledLangs.Some? {
        var langsToSelections := [];
        for i := 0 to |langSelections|
          invariant langsToSelections == Matching(langSelections[..i], enabledLangs.value)
        {
          assert langSelections[..i + 1][..i] == langSelections[..i];
          var selection := langSelections[i];
          if selection.data.Some? && selection.data.value in enabledLangs.value {
            langsToSelections := langsToSelections + [selection];
          }
        }
        assert langSelections[..|langSelections|] == langSelections;
        if |langsToSelections| > 0 {
          screen.enabledSelections := langsToSelections;
        } else {
          screen.enabledSelections := [langSelections[0]];
        }
      }
      screen.selectionCallback := Some(MultipleChoiceLists.SaveLanguageSelection);
    }

    /**
     * `showQualitySelectionScreen`: the quality choices as a single
     * choice, the first stored quality preselected, and the save callback
     * installed.
     */
    method ShowQualitySelectionScreen() returns (screen: MultipleChoiceList)
      requires TWITCH_QUALITY_KEY in cloud.values ==> |qualitySelections| > 0
      ensures fresh(screen)
      ensures screen.selections == qualitySelections && screen.singleSelection && !screen.firstExclusive
      ensures screen.enabledSelections == QualityPreselection(qualitySelections, cloud.Lookup(TWITCH_QUALITY_KEY))
      ensures screen.selectionCallback == Some(MultipleChoiceLists.SaveQualitySelection)
    {
      screen := new MultipleChoiceList();
      screen.selections := qualitySelections;
      var enabled := cloud.Lookup(TWITCH_QUALITY_KEY);
      if enabled.Some? {
        var i := 0;
        while i < |qualitySelections|
          invariant 0 <= i <= |qualitySelections|
          invariant screen.enabledSelections == []
          invariant forall k :: 0 <= k < i ==> qualitySelections[k].data.None? || qualitySelections[k].data.value !in enabled.value
        {
          var selection := qualitySelections[i];
          if selection.data.Some? && selection.data.value in enabled.value {
            screen.enabledSelections := [selection];
            break;
          }
          assert qualitySelections[i..][1..] == qualitySelections[i + 1..];
          i := i + 1;
        }
        if |screen.enabledSelections| == 0 {
          screen.enabledSelections := [qualitySelections[0]];
        }
      }
      screen.singleSelection := true;
      screen.selectionCallback := Some(MultipleChoiceLists.SaveQualitySelection);
    }
  }
}
