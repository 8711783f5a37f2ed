/**
 * The settings panel: the list of preferred news sources is edited by adding a trimmed source
 * not yet listed, removing a source, or going back to the default list. Each handler builds new
 * settings and hands them to `onSettingsChange`; the settings' other fields are kept as they are.
 */
module Settings {
  import opened Wrappers
  import opened Strings
  import News

  /** The panel's own copy of the default sources. */
  const DEFAULT_SOURCES: seq<string> := [
    "Wall Street Journal", "Bloomberg", "Reuters", "Financial Times", "CNBC", "Barron's",
    "Investor's Business Daily", "Yahoo Finance", "Seeking Alpha" ]

  /** The settings: the preferred sources, and the other fields, of any type `R`. */
  datatype Settings<R> = Settings(preferredSources: seq<string>, rest: R)

  /** No source is listed twice. */
  predicate Distinct(xs: seq<string>) {
    forall i, j :: 0 <= i < j < |xs| ==> xs[i] != xs[j]
  }

  /** The panel's defaults are the news service's defaults, and list no source twice. */
  lemma DefaultSources()
    ensures DEFAULT_SOURCES == News.DEFAULT_SOURCES
    ensures |DEFAULT_SOURCES| == 9 && Distinct(DEFAULT_SOURCES)
  {
    forall i, j | 0 <= i < j < |DEFAULT_SOURCES|
      ensures DEFAULT_SOURCES[i] != DEFAULT_SOURCES[j]
    {
      DefaultsDiffer(i, j);
    }
  }

  /** Two different entries of the defaults differ in length or in their first letter. */
  lemma DefaultsDiffer(i: nat, j: nat)
    requires i < j < |DEFAULT_SOURCES|
    ensures DEFAULT_SOURCES[i] != DEFAULT_SOURCES[j]
  {
    var a, b := DEFAULT_SOURCES[i], DEFAULT_SOURCES[j];
    if |a| == |b| {
      assert a[0] != b[0];
    }
  }

  // ---------------------------------------------------------------------------------------------
  // Adding a source
  // ---------------------------------------------------------------------------------------------

  /** The settings handed to `onSettingsChange`, if any, and the text of the input afterwards. */
  datatype AddOutcome<R> = AddOutcome(change: Option<Settings<R>>, newSource: string)

  /**
   * `handleAddSource`: a trimmed source that is not blank and not yet listed (compared exactly)
   * is appended and the input is cleared; otherwise nothing happens.
   */
  function AddSource<R>(settings: Settings<R>, newSource: string): (r: AddOutcome<R>)
    ensures Trim(newSource) == "" || Trim(newSource) in settings.preferredSources ==>
              r == AddOutcome(None, newSource)
    ensures r.change.Some? ==>
              && r.newSource == ""
              && r.change.value.rest == settings.rest
              && |r.change.value.preferredSources| == |settings.preferredSources| + 1
              && r.change.value.preferredSources[..|settings.preferredSources|] == settings.preferredSources
              && r.change.value.preferredSources[|settings.preferredSources|] == Trim(newSource)
  {
    var source := Trim(newSource);
    if source != "" && source !in settings.preferredSources then
      AddOutcome(Some(settings.(preferredSources := settings.preferredSources + [source])), "")
    else AddOutcome(None, newSource)
  }

  /** Adding keeps the sources distinct. */
  lemma AddKeepsDistinct<R>(settings: Settings<R>, newSource: string)
    requires Distinct(settings.preferredSources)
    ensures var r := AddSource(settings, newSource);
            r.change.Some? ==> Distinct(r.change.value.preferredSources)
  {
  }

  /** A source is added exactly when its trimmed form is not blank and not yet listed. */
  lemma AddTakesNewSources<R>(settings: Settings<R>, newSource: string)
    ensures AddSource(settings, newSource).change.Some?
        <==> !AllWhitespace(newSource) && Trim(newSource) !in settings.preferredSources
  {
    TrimEmptyIff(newSource);
  }

  // ---------------------------------------------------------------------------------------------
  // Removing a source
  // ---------------------------------------------------------------------------------------------

  /** The sources other than `source`, in order. */
  function Without(xs: seq<string>, source: string): (r: seq<string>)
    ensures |r| <= |xs|
    ensures forall k :: 0 <= k < |r| ==> r[k] != source
    decreases |xs|
  {
    if |xs| == 0 then []
    else (if xs[0] != source then [xs[0]] else []) + Without(xs[1..], source)
  }

  /** `handleRemoveSource`: every entry equal to `source` is dropped. */
  function RemoveSource<R>(settings: Settings<R>, source: string): (r: Settings<R>)
    ensures r.rest == settings.rest
  {
    settings.(preferredSources := Without(settings.preferredSources, source))
  }

  /** After removing, exactly the other sources are listed. */
  lemma {:induction false} WithoutMembers(xs: seq<string>, source: string, x: string)
    ensures x in Without(xs, source) <==> x in xs && x != source
    decreases |xs|
  {
    if |xs| > 0 {
      WithoutMembers(xs[1..], source, x);
      assert xs == [xs[0]] + xs[1..];
    }
  }

  /** Removing keeps the order of what stays: removing from a concatenation removes from each part. */
  lemma {:induction false} WithoutConcat(xs: seq<string>, ys: seq<string>, source: string)
    ensures Without(xs + ys, source) == Without(xs, source) + Without(ys, source)
    decreases |xs|
  {
    if |xs| == 0 {
      assert xs + ys == ys;
    } else {
      assert (xs + ys)[1..] == xs[1..] + ys;
      WithoutConcat(xs[1..], ys, source);
    }
  }

  /** Removing a source that is not listed changes nothing. */
  lemma {:induction false} WithoutAbsent(xs: seq<string>, source: string)
    requires source !in xs
    ensures Without(xs, source) == xs
    decreases |xs|
  {
    if |xs| > 0 {
      WithoutAbsent(xs[1..], source);
      assert [xs[0]] + xs[1..] == xs;
    }
  }

  /** Removing keeps the sources distinct. */
  lemma {:induction false} WithoutKeepsDistinct(xs: seq<string>, source: string)
    requires Distinct(xs)
    ensures Distinct(Without(xs, source))
    decreases |xs|
  {
    if |xs| > 0 {
      var rest := xs[1..];
      WithoutKeepsDistinct(rest, source);
      WithoutMembers(rest, source, xs[0]);
      assert xs[0] !in rest;
    }
  }

  /** Removing what was just added gives back the settings it was added to. */
  lemma RemoveUndoesAdd<R>(settings: Settings<R>, newSource: string)
    requires AddSource(settings, newSource).change.Some?
    ensures RemoveSource(AddSource(settings, newSource).change.value, Trim(newSource)) == settings
  {
    var xs, x := settings.preferredSources, Trim(newSource);
    WithoutConcat(xs, [x], x);
    WithoutAbsent(xs, x);
    assert Without([x], x) == [];
  }

  // ---------------------------------------------------------------------------------------------
  // Resetting
  // ---------------------------------------------------------------------------------------------

  /** `handleResetSources`: the default sources, in their listed order. */
  function ResetSources<R>(settings: Settings<R>): (r: Settings<R>)
    ensures r.rest == settings.rest
  {
    settings.(preferredSources := DEFAULT_SOURCES)
  }

  /** After a reset the nine defaults are listed, each once, whatever was listed before. */
  lemma ResetIsDefaults<R>(settings: Settings<R>)
    ensures ResetSources(settings).preferredSources == News.DEFAULT_SOURCES
    ensures Distinct(ResetSources(settings).preferredSources)
  {
    DefaultSources();
  }
}
