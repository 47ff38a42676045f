/**
 * The exercise runner's state store (`useStore` in src/utils/store.tsx):
 * one object whose fields the actions replace in place. The page's URL
 * fragment is the field `hash`, held without its leading `#`. Network
 * replies come in as `Option` parameters (None: the request or its JSON
 * parsing failed), and the markdown converter is the function `toHtml`
 * given at construction. A `setStatus` timer is a pending clear; the
 * environment fires pending clears one at a time with `FireStatusClear`.
 */
module Store {
  import opened Wrappers
  import opened JsString
  import opened HashCodec

  /** One record of the exercise list served by the backend. */
  datatype Exercise = Exercise(slug: string, entry: string)

  /** The label and style class of a button (`IBuildProps`). */
  datatype ButtonProps = ButtonProps(text: string, className: string)

  /** Every field of the store, for stating that an action changes nothing else. */
  datatype Snapshot = Snapshot(
    language: string,
    currentExercisePosition: int,
    numberOfExercises: int,
    exercises: seq<Exercise>,
    status: string,
    pendingClears: nat,
    showFeedback: bool,
    feedback: string,
    token: string,
    solvedExercises: int,
    buildbuttonText: ButtonProps,
    feedbackbuttonProps: ButtonProps,
    hash: string)

  /** The language `toggleLanguage` switches to: "us" becomes "es", anything else "us". */
  function ToggledLanguage(language: string): (r: string)
    ensures r == "us" || r == "es"
    ensures r == "es" <==> language == "us"
  {
    if language == "us" then "es" else "us"
  }

  /** On the two supported codes, toggling twice restores the language. */
  lemma ToggledLanguageTwice(language: string)
    requires language == "us" || language == "es"
    ensures ToggledLanguage(ToggledLanguage(language)) == language
  {
  }

  /** `entry.split("/")[1]`: the file name after the first `/`, or undefined. */
  function EntryPoint(entry: string): (r: Option<string>)
    ensures r.Some? ==> '/' !in r.value
  {
    ItemAt(Split(entry, '/'), 1)
  }

  /** The entry point is defined exactly when the entry path has a `/`. */
  lemma EntryPointDefined(entry: string)
    ensures EntryPoint(entry).Some? <==> '/' in entry
  {
    SplitLength(entry, '/');
  }

  /** For `dir/file` or `dir/file/rest` with `dir`, `file` free of `/`, the entry point is `file`. */
  lemma EntryPointOfPath(dir: string, file: string, rest: string)
    requires '/' !in dir && '/' !in file
    ensures EntryPoint(dir + "/" + file) == Some(file)
    ensures EntryPoint(dir + "/" + file + "/" + rest) == Some(file)
  {
    SplitPair(dir, file, '/');
    assert dir + "/" + file + "/" + rest == dir + ['/'] + (file + ['/'] + rest);
    SplitConcat(dir, file + ['/'] + rest, '/');
    SplitConcat(file, rest, '/');
    SplitWithoutSeparator(dir, '/');
    SplitWithoutSeparator(file, '/');
  }

  /** What `getAIFeedback` requests the current code file with. */
  datatype FileRequest = FileRequest(slug: string, entryPoint: Option<string>)

  /**
   * The slug and entry point `getAIFeedback` reads from the current
   * exercise; None when `exercises[currentExercisePosition]` is undefined,
   * where the source throws before any request.
   */
  function AIFeedbackRequest(exercises: seq<Exercise>, position: int): (r: Option<FileRequest>)
    ensures r.Some? <==> 0 <= position < |exercises|
    ensures r.Some? ==> r.value.slug == exercises[position].slug
    ensures r.Some? ==> r.value.entryPoint == EntryPoint(exercises[position].entry)
  {
    if 0 <= position < |exercises| then
      Some(FileRequest(exercises[position].slug, EntryPoint(exercises[position].entry)))
    else None
  }

  class Store {
    var language: string
    var currentExercisePosition: int
    var numberOfExercises: int
    var exercises: seq<Exercise>
    var status: string
    /** `setStatus` timers scheduled and not yet fired. */
    var pendingClears: nat
    var showFeedback: bool
    var feedback: string
    var token: string
    var solvedExercises: int
    var buildbuttonText: ButtonProps
    var feedbackbuttonProps: ButtonProps
    /** `window.location.hash` without the leading `#`. */
    var hash: string
    /** `convertMarkdownToHTML`, an external converter. */
    const toHtml: string -> string
    /** Display labels of the two language codes. */
    const languageMap: map<string, string>

    /** The list length the store reports is always the length of the list it holds. */
    ghost predicate Valid()
      reads this
    {
      numberOfExercises == |exercises|
    }

    ghost function State(): Snapshot
      reads this
    {
      Snapshot(language, currentExercisePosition, numberOfExercises, exercises, status,
               pendingClears, showFeedback, feedback, token, solvedExercises,
               buildbuttonText, feedbackbuttonProps, hash)
    }

    /** The initial state of the store, over the fragment the page was opened with. */
    constructor (initialHash: string, toHtml: string -> string)
      ensures Valid()
      ensures State() == Snapshot("us", 0, 0, [], "", 0, false, "", "", 0,
                                  ButtonProps("Run", ""), ButtonProps("Feedback", ""), initialHash)
      ensures this.toHtml == toHtml
      ensures languageMap == map["us" := "ENG", "es" := "SPA"]
    {
      language := "us";
      languageMap := map["us" := "ENG", "es" := "SPA"];
      exercises := [];
      currentExercisePosition := 0;
      numberOfExercises := 0;
      solvedExercises := 0;
      status := "";
      pendingClears := 0;
      feedback := "";
      showFeedback := false;
      token := "";
      buildbuttonText := ButtonProps("Run", "");
      feedbackbuttonProps := ButtonProps("Feedback", "");
      hash := initialHash;
      this.toHtml := toHtml;
    }

    method IncreaseSolvedExercises()
      requires Valid()
      modifies this
      ensures Valid()
      ensures State() == old(State()).(solvedExercises := old(solvedExercises) + 1)
    {
      solvedExercises := solvedExercises + 1;
    }

    method SetBuildButtonText(t: string, c: string := "")
      requires Valid()
      modifies this
      ensures Valid()
      ensures State() == old(State()).(buildbuttonText := ButtonProps(t, c))
    {
      buildbuttonText := ButtonProps(t, c);
    }

    method SetFeedbackButtonProps(t: string, c: string := "")
      requires Valid()
      modifies this
      ensures Valid()
      ensures State() == old(State()).(feedbackbuttonProps := ButtonProps(t, c))
    {
      feedbackbuttonProps := ButtonProps(t, c);
    }

    method ToggleFeedback()
      requires Valid()
      modifies this
      ensures Valid()
      ensures State() == old(State()).(showFeedback := !old(showFeedback))
    {
      showFeedback := !showFeedback;
    }

    /** Sets the status now and schedules one more clear; no earlier clear is cancelled. */
    method SetStatus(newStatus: string)
      requires Valid()
      modifies this
      ensures Valid()
      ensures State() == old(State()).(status := newStatus, pendingClears := old(pendingClears) + 1)
    {
      status := newStatus;
      pendingClears := pendingClears + 1;
    }

    /** A scheduled clear fires: the status becomes "" whatever was set since. */
    method FireStatusClear()
      requires Valid()
      requires pendingClears > 0
      modifies this
      ensures Valid()
      ensures State() == old(State()).(status := "", pendingClears := old(pendingClears) - 1)
    {
      status := "";
      pendingClears := pendingClears - 1;
    }

    method SetToken(newToken: string)
      requires Valid()
      modifies this
      ensures Valid()
      ensures State() == old(State()).(token := newToken)
    {
      token := newToken;
    }

    /**
     * `checkLoggedStatus` given the `rigoToken` of the status reply, or None
     * when the request or the JSON parsing failed: failure leaves no token.
     */
    method CheckLoggedStatus(rigoToken: Option<string>)
      requires Valid()
      modifies this
      ensures Valid()
      ensures State() == old(State()).(token := if rigoToken.Some? then rigoToken.value else "")
    {
      match rigoToken {
        case Some(t) => token := t;
        case None => token := "";
      }
    }

    /**
     * `fetchExercises` given the parsed exercise list, or None when the
     * request failed; a failure propagates and sets nothing.
     */
    method FetchExercises(files: Option<seq<Exercise>>) returns (ok: bool)
      requires Valid()
      modifies this
      ensures Valid()
      ensures ok <==> files.Some?
      ensures State() == if ok then old(State()).(exercises := files.value, numberOfExercises := |files.value|)
                         else old(State())
    {
      ok := files.Some?;
      if ok {
        exercises := files.value;
        numberOfExercises := |files.value|;
      }
    }

    /** Stores the converted feedback and flips (not sets) the panel's visibility. */
    method StoreFeedback(markdown: string)
      requires Valid()
      modifies this
      ensures Valid()
      ensures State() == old(State()).(feedback := toHtml(markdown), showFeedback := !old(showFeedback))
    {
      feedback := toHtml(markdown);
      ToggleFeedback();
    }

    /**
     * `getAIFeedback` given the markdown the feedback service returned, or
     * None when a request failed. It returns the file request it would
     * issue; when the current exercise is undefined the source throws before
     * any request and nothing changes, as on a failed request.
     */
    method GetAIFeedback(reply: Option<string>) returns (request: Option<FileRequest>)
      requires Valid()
      modifies this
      ensures Valid()
      ensures request == AIFeedbackRequest(exercises, currentExercisePosition)
      ensures State() == if request.Some? && reply.Some?
                         then old(State()).(feedback := toHtml(reply.value), showFeedback := !old(showFeedback))
                         else old(State())
    {
      if 0 <= currentExercisePosition < |exercises| {
        var current := exercises[currentExercisePosition];
        request := Some(FileRequest(current.slug, EntryPoint(current.entry)));
        if reply.Some? {
          feedback := toHtml(reply.value);
          ToggleFeedback();
        }
      } else {
        request := None;
      }
    }

    /** Rewrites the fragment's position item and moves to `newPosition`; no refetch. */
    method SetPosition(newPosition: int)
      requires Valid()
      modifies this
      ensures Valid()
      ensures State() == old(State()).(hash := SetPositionHash(old(hash), newPosition),
                                       currentExercisePosition := newPosition)
    {
      hash := SetPositionHash(hash, newPosition);
      currentExercisePosition := newPosition;
    }

    /** Sets the language; the readme refetch that follows is not part of this model. */
    method SetLanguage(newLanguage: string)
      requires Valid()
      modifies this
      ensures Valid()
      ensures State() == old(State()).(language := newLanguage)
    {
      language := newLanguage;
    }

    /** Switches the language and rewrites the fragment's language item. */
    method ToggleLanguage()
      requires Valid()
      modifies this
      ensures Valid()
      ensures State() == old(State()).(language := ToggledLanguage(old(language)),
                                       hash := ToggleLanguageHash(old(hash), ToggledLanguage(old(language))))
    {
      var newLang := ToggledLanguage(language);
      language := newLang;
      hash := ToggleLanguageHash(hash, newLang);
    }
  }

  // -----------------------------------------------------------------------
  // Clients: what callers can prove from the contracts above

  /** Toggling the feedback panel twice restores the whole store. */
  method ToggleFeedbackTwice(s: Store)
    requires s.Valid()
    modifies s
    ensures s.Valid() && s.State() == old(s.State())
  {
    s.ToggleFeedback();
    s.ToggleFeedback();
  }

  /** Storing feedback shows a hidden panel; a following toggle hides it again. */
  method StoreThenToggleFeedback(s: Store, markdown: string)
    requires s.Valid() && !s.showFeedback
    modifies s
    ensures s.Valid() && !s.showFeedback && s.feedback == s.toHtml(markdown)
  {
    s.StoreFeedback(markdown);
    assert s.showFeedback;
    s.ToggleFeedback();
  }

  /**
   * The timer of a first `setStatus` clears the status set by a second one:
   * an earlier timer is never cancelled.
   */
  method StatusTimerRace(initialHash: string, toHtml: string -> string) returns (status: string)
    ensures status == ""
  {
    var s := new Store(initialHash, toHtml);
    s.SetStatus("Building");
    assert s.status == "Building";
    s.SetStatus("Done");
    s.FireStatusClear();
    status := s.status;
    assert s.pendingClears == 1;
  }

  /** A failed token check leaves the store unauthenticated, whatever the token was. */
  method FailedTokenCheck(initialHash: string, toHtml: string -> string, earlier: string) returns (token: string)
    ensures token == ""
  {
    var s := new Store(initialHash, toHtml);
    s.SetToken(earlier);
    s.CheckLoggedStatus(None);
    token := s.token;
  }

  /**
   * Two toggles restore a supported language, and keep both the position
   * item and the new language item of the fragment in place.
   */
  method ToggleLanguageTwice(s: Store)
    requires s.Valid() && (s.language == "us" || s.language == "es")
    modifies s
    ensures s.Valid() && s.language == old(s.language)
    ensures Lookup(s.hash, PositionKey) == Lookup(old(s.hash), PositionKey)
    ensures Lookup(s.hash, LanguageKey) == Some(LanguageItem(old(s.language)))
  {
    ghost var h0 := s.hash;
    s.ToggleLanguage();
    ToggleLanguageKeepsPosition(h0, s.language);
    ghost var h1 := s.hash;
    s.ToggleLanguage();
    ToggledLanguageTwice(old(s.language));
    ToggleLanguageKeepsPosition(h1, s.language);
  }
}
