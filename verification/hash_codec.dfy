/**
 * The URL-fragment rewriting done by the store's `setPosition` and
 * `toggleLanguage`. A fragment (without its leading `#`) is a `&`-separated
 * list of items; an item is looked up by the first one that INCLUDES a key
 * (substring, not key equality). Each rewrite rebuilds the fragment from
 * the one item it writes, followed by `&` and the other key's old item when
 * that is present.
 */
module HashCodec {
  import opened Wrappers
  import opened JsString

  const PositionKey := "currentExercise"
  const LanguageKey := "language"

  /** The item `currentExercise=<n>` that `setPosition(n)` writes. */
  function PositionItem(n: int): string {
    PositionKey + "=" + IntToString(n)
  }

  /** The item `language=<lang>` that `toggleLanguage` writes. */
  function LanguageItem(lang: string): string {
    LanguageKey + "=" + lang
  }

  // ---------------------------------------------------------------------
  // Reading a fragment

  /** Reference decoder: the first item that includes `key`, if any. */
  function FirstIncluding(items: seq<string>, key: string): (r: Option<string>)
    ensures r.Some? ==> r.value in items && Includes(r.value, key)
    ensures r.None? <==> forall i :: 0 <= i < |items| ==> !Includes(items[i], key)
  {
    if items == [] then None
    else if Includes(items[0], key) then Some(items[0])
    else FirstIncluding(items[1..], key)
  }

  /** The item of `fragment` the store would pick for `key`. */
  function Lookup(fragment: string, key: string): (r: Option<string>)
    ensures r.Some? ==> Includes(r.value, key) && '&' !in r.value
  {
    FirstIncluding(Split(fragment, '&'), key)
  }

  /** `items[items.findIndex(i => i.includes(key))]` is the first item including `key`. */
  lemma {:induction false} FindIndexPicksFirst(items: seq<string>, key: string)
    ensures ItemAt(items, FindIndex(items, key)) == FirstIncluding(items, key)
  {
    if items != [] && !Includes(items[0], key) {
      FindIndexPicksFirst(items[1..], key);
    }
  }

  // ---------------------------------------------------------------------
  // Writing a fragment

  /** The new fragment `setPosition(newPosition)` writes over the old `params`. */
  function SetPositionHash(params: string, newPosition: int): string {
    var paramsArray := Split(params, '&');
    // `language` starts as "" and is only looked up for more than one item
    var language :=
      if |paramsArray| > 1 then ItemAt(paramsArray, FindIndex(paramsArray, LanguageKey))
      else Some("");
    var hash := PositionItem(newPosition);
    if Truthy(language) then hash + "&" + language.value else hash
  }

  /**
   * The new fragment `toggleLanguage` writes over the old `params`. The
   * source guards the lookup with `if (paramsArray)`, which holds for every
   * array, so the lookup always happens.
   */
  function ToggleLanguageHash(params: string, newLang: string): string {
    var paramsArray := Split(params, '&');
    var position := ItemAt(paramsArray, FindIndex(paramsArray, PositionKey));
    var hash := LanguageItem(newLang);
    if Truthy(position) then hash + "&" + position.value else hash
  }

  // ---------------------------------------------------------------------
  // What the written items include

  lemma PositionItemShape(n: int)
    ensures 'l' !in PositionItem(n) && '&' !in PositionItem(n)
    ensures Includes(PositionItem(n), PositionKey)
    ensures !Includes(PositionItem(n), LanguageKey)
  {
    var digits := IntToString(n);
    assert PositionItem(n) == "currentExercise=" + digits;
    assert 'l' !in digits && '&' !in digits;
    assert StartsWith(PositionItem(n), PositionKey);
    if Includes(PositionItem(n), LanguageKey) {
      IncludesFirstChar(PositionItem(n), LanguageKey);
    }
  }

  lemma LanguageItemShape(lang: string)
    requires 'c' !in lang && '&' !in lang
    ensures '&' !in LanguageItem(lang)
    ensures Includes(LanguageItem(lang), LanguageKey)
    ensures !Includes(LanguageItem(lang), PositionKey)
  {
    assert LanguageItem(lang) == "language=" + lang;
    assert StartsWith(LanguageItem(lang), LanguageKey);
    if Includes(LanguageItem(lang), PositionKey) {
      IncludesFirstChar(LanguageItem(lang), PositionKey);
    }
  }

  /** An item that includes a non-empty key is itself non-empty, hence truthy. */
  lemma IncludedItemIsTruthy(item: string, key: string)
    requires key != [] && Includes(item, key)
    ensures Truthy(Some(item))
  {
    IncludesFirstChar(item, key);
  }

  /** Looking up a key in a one-item fragment. */
  lemma LookupSingle(a: string, key: string)
    requires '&' !in a
    ensures Lookup(a, key) == if Includes(a, key) then Some(a) else None
  {
    SplitWithoutSeparator(a, '&');
  }

  /** Looking up a key in a two-item fragment `a&b`. */
  lemma LookupPair(a: string, b: string, key: string)
    requires '&' !in a && '&' !in b
    ensures Lookup(a + "&" + b, key) ==
      if Includes(a, key) then Some(a) else if Includes(b, key) then Some(b) else None
  {
    var items := [a, b];
    SplitPair(a, b, '&');
    assert Split(a + "&" + b, '&') == items;
    assert items[1..] == [b];
    if !Includes(a, key) {
      assert FirstIncluding(items, key) == FirstIncluding([b], key);
      assert [b][1..] == [];
    }
  }

  /** `a&b` starts with `a`. */
  lemma PairStartsWith(a: string, b: string)
    ensures StartsWith(a + "&" + b, a)
  {
    assert (a + "&" + b)[..|a|] == a;
  }

  // ---------------------------------------------------------------------
  // setPosition

  /**
   * The fragment `setPosition(n)` writes: the position item, then `&` and
   * the old language item only when the old fragment had more than one
   * item and one of them included "language".
   */
  lemma SetPositionForm(params: string, n: int)
    ensures SetPositionHash(params, n) ==
      if |Split(params, '&')| > 1 && Lookup(params, LanguageKey).Some?
      then PositionItem(n) + "&" + Lookup(params, LanguageKey).value
      else PositionItem(n)
  {
    var items := Split(params, '&');
    FindIndexPicksFirst(items, LanguageKey);
    var found := FirstIncluding(items, LanguageKey);
    if found.Some? {
      IncludedItemIsTruthy(found.value, LanguageKey);
    }
  }

  /** The items of that fragment, as `split('&')` gives them back. */
  lemma SetPositionItems(params: string, n: int)
    ensures Split(SetPositionHash(params, n), '&') ==
      if |Split(params, '&')| > 1 && Lookup(params, LanguageKey).Some?
      then [PositionItem(n), Lookup(params, LanguageKey).value]
      else [PositionItem(n)]
  {
    SetPositionForm(params, n);
    PositionItemShape(n);
    var found := Lookup(params, LanguageKey);
    if |Split(params, '&')| > 1 && found.Some? {
      assert '&' !in found.value;
      SplitPair(PositionItem(n), found.value, '&');
    } else {
      SplitWithoutSeparator(PositionItem(n), '&');
    }
  }

  /** After `setPosition(n)` the fragment starts with `currentExercise=<n>`, its position item. */
  lemma SetPositionWritesPosition(params: string, n: int)
    ensures Lookup(SetPositionHash(params, n), PositionKey) == Some(PositionItem(n))
    ensures StartsWith(SetPositionHash(params, n), PositionItem(n))
  {
    SetPositionForm(params, n);
    PositionItemShape(n);
    var found := Lookup(params, LanguageKey);
    if |Split(params, '&')| > 1 && found.Some? {
      assert '&' !in found.value;
      LookupPair(PositionItem(n), found.value, PositionKey);
      PairStartsWith(PositionItem(n), found.value);
    } else {
      LookupSingle(PositionItem(n), PositionKey);
    }
  }

  /** With more than one old item, `setPosition` keeps the language item the fragment had. */
  lemma SetPositionKeepsLanguage(params: string, n: int)
    requires |Split(params, '&')| > 1
    ensures Lookup(SetPositionHash(params, n), LanguageKey) == Lookup(params, LanguageKey)
  {
    SetPositionForm(params, n);
    PositionItemShape(n);
    var found := Lookup(params, LanguageKey);
    if found.Some? {
      assert '&' !in found.value;
      LookupPair(PositionItem(n), found.value, LanguageKey);
    } else {
      LookupSingle(PositionItem(n), LanguageKey);
    }
  }

  /** With at most one old item, `setPosition` writes the position item alone. */
  lemma SetPositionSingleItem(params: string, n: int)
    requires |Split(params, '&')| <= 1
    ensures SetPositionHash(params, n) == PositionItem(n)
    ensures Lookup(SetPositionHash(params, n), LanguageKey) == None
  {
    SetPositionForm(params, n);
    PositionItemShape(n);
    LookupSingle(PositionItem(n), LanguageKey);
  }

  /** A fragment holding only a language item loses it on `setPosition`. */
  lemma SetPositionDropsLoneLanguage(lang: string, n: int)
    requires '&' !in lang
    ensures Lookup(LanguageItem(lang), LanguageKey) == Some(LanguageItem(lang))
    ensures SetPositionHash(LanguageItem(lang), n) == PositionItem(n)
  {
    assert LanguageItem(lang) == "language=" + lang;
    SplitWithoutSeparator(LanguageItem(lang), '&');
    assert StartsWith(LanguageItem(lang), LanguageKey);
    SetPositionSingleItem(LanguageItem(lang), n);
  }

  /**
   * Moving from `language=<lang>&currentExercise=<m>` to `n` yields
   * `currentExercise=<n>&language=<lang>`: the language survives, the
   * position is replaced.
   */
  lemma SetPositionOverBothItems(lang: string, m: int, n: int)
    requires '&' !in lang
    ensures SetPositionHash(LanguageItem(lang) + "&" + PositionItem(m), n)
         == PositionItem(n) + "&" + LanguageItem(lang)
  {
    var params := LanguageItem(lang) + "&" + PositionItem(m);
    assert LanguageItem(lang) == "language=" + lang;
    assert StartsWith(LanguageItem(lang), LanguageKey);
    PositionItemShape(m);
    SplitPair(LanguageItem(lang), PositionItem(m), '&');
    LookupPair(LanguageItem(lang), PositionItem(m), LanguageKey);
    SetPositionForm(params, n);
  }

  // ---------------------------------------------------------------------
  // toggleLanguage

  /**
   * The fragment `toggleLanguage` writes: the language item, then `&` and
   * the old position item when one of the old items included
   * "currentExercise".
   */
  lemma ToggleLanguageForm(params: string, newLang: string)
    ensures ToggleLanguageHash(params, newLang) ==
      if Lookup(params, PositionKey).Some?
      then LanguageItem(newLang) + "&" + Lookup(params, PositionKey).value
      else LanguageItem(newLang)
  {
    var items := Split(params, '&');
    FindIndexPicksFirst(items, PositionKey);
    var found := FirstIncluding(items, PositionKey);
    if found.Some? {
      IncludedItemIsTruthy(found.value, PositionKey);
    }
  }

  /** The items of that fragment, as `split('&')` gives them back. */
  lemma ToggleLanguageItems(params: string, newLang: string)
    requires 'c' !in newLang && '&' !in newLang
    ensures Split(ToggleLanguageHash(params, newLang), '&') ==
      if Lookup(params, PositionKey).Some?
      then [LanguageItem(newLang), Lookup(params, PositionKey).value]
      else [LanguageItem(newLang)]
  {
    ToggleLanguageForm(params, newLang);
    LanguageItemShape(newLang);
    var found := Lookup(params, PositionKey);
    if found.Some? {
      assert '&' !in found.value;
      SplitPair(LanguageItem(newLang), found.value, '&');
    } else {
      SplitWithoutSeparator(LanguageItem(newLang), '&');
    }
  }

  /** `toggleLanguage` writes the new language item first and keeps the old position item. */
  lemma ToggleLanguageKeepsPosition(params: string, newLang: string)
    requires 'c' !in newLang && '&' !in newLang
    ensures Lookup(ToggleLanguageHash(params, newLang), LanguageKey) == Some(LanguageItem(newLang))
    ensures Lookup(ToggleLanguageHash(params, newLang), PositionKey) == Lookup(params, PositionKey)
    ensures StartsWith(ToggleLanguageHash(params, newLang), LanguageItem(newLang))
  {
    ToggleLanguageForm(params, newLang);
    LanguageItemShape(newLang);
    var found := Lookup(params, PositionKey);
    if found.Some? {
      assert '&' !in found.value;
      LookupPair(LanguageItem(newLang), found.value, LanguageKey);
      LookupPair(LanguageItem(newLang), found.value, PositionKey);
      PairStartsWith(LanguageItem(newLang), found.value);
    } else {
      LookupSingle(LanguageItem(newLang), LanguageKey);
      LookupSingle(LanguageItem(newLang), PositionKey);
    }
  }
}
