/** The bucketing loop of `get_files`: every `.csv` name of a directory
    listing, visited in sorted order, is joined to the directory and appended
    to each of six lists whose Fitabase suffix it contains. Listing the
    directory is left to the caller, which passes the names in. */
module FileBuckets {
  import opened PyStrings

  /** A name `os.listdir` returns: it never contains the separator. */
  type FileName = s: string | '/' !in s

  const HrSuffix := "fitbitWearTimeViaHR"
  const CalSuffix := "minuteCaloriesNarrow"
  const StepSuffix := "minuteStepsNarrow"
  const StepDailySuffix := "dailySteps"
  const AlignSuffix := "dailyCalories"
  const SynchSuffix := "syncEvents"

  /** The six channels, one per list. */
  datatype Channel = HeartRate | MinuteCalories | MinuteSteps | DailySteps | DailyCalories | SyncEvents

  function Suffix(ch: Channel): string {
    match ch
    case HeartRate => HrSuffix
    case MinuteCalories => CalSuffix
    case MinuteSteps => StepSuffix
    case DailySteps => StepDailySuffix
    case DailyCalories => AlignSuffix
    case SyncEvents => SynchSuffix
  }

  /** The six lists the loop fills. */
  datatype Buckets = Buckets(
    hr: seq<string>, cal: seq<string>, step: seq<string>,
    stepDaily: seq<string>, align: seq<string>, synch: seq<string>)
  {
    function Get(ch: Channel): seq<string> {
      match ch
      case HeartRate => hr
      case MinuteCalories => cal
      case MinuteSteps => step
      case DailySteps => stepDaily
      case DailyCalories => align
      case SyncEvents => synch
    }
  }

  /** The directory part `os.path.join(dir, name)` puts before `name`: the
      directory itself when it is empty or ends with the separator, else the
      directory and one separator. */
  function DirPrefix(dir: string): string {
    if dir == [] || dir[|dir| - 1] == '/' then dir else dir + "/"
  }

  /** `os.path.join(dir, name)` for a name without a separator, so never an
      absolute one. */
  function Join(dir: string, name: FileName): string {
    DirPrefix(dir) + name
  }

  /** Distinct names give distinct paths. */
  lemma JoinInjective(dir: string, a: FileName, b: FileName)
    requires Join(dir, a) == Join(dir, b)
    ensures a == b
  {
    var p := DirPrefix(dir);
    assert a == (p + a)[|p|..];
    assert b == (p + b)[|p|..];
  }

  /** Paths in one directory compare as their names do. */
  lemma JoinKeepsOrder(dir: string, a: FileName, b: FileName)
    ensures Below(Join(dir, a), Join(dir, b)) <==> Below(a, b)
  {
    BelowCommonPrefix(DirPrefix(dir), a, b);
  }

  /** The test the loop applies to a name for one list. */
  predicate Placed(name: string, suffix: string) {
    Contains(name, ".csv") && Contains(name, suffix)
  }

  /** What one list holds after the loop has visited `names`. */
  function Select(dir: string, names: seq<FileName>, suffix: string): seq<string> {
    if names == [] then []
    else
      var last := names[|names| - 1];
      Select(dir, names[..|names| - 1], suffix) + (if Placed(last, suffix) then [Join(dir, last)] else [])
  }

  /** `sorted(os.listdir(path))`, for the names the listing returned. */
  function SortNames(listing: seq<FileName>): (r: seq<FileName>)
    ensures Sorted(r)
    ensures multiset(r) == multiset(listing)
  {
    var s := Sort(listing);
    assert forall k | 0 <= k < |s| :: s[k] in multiset(listing);
    s
  }

  /** The path of a listed name is in a list exactly when the name is a
      `.csv` name containing that list's suffix, and the list holds nothing
      but such paths. A name is therefore put in every list whose suffix it
      contains, and in none when it lacks ".csv". */
  lemma {:induction false} SelectMembers(dir: string, names: seq<FileName>, suffix: string)
    ensures forall n: FileName :: Join(dir, n) in Select(dir, names, suffix) <==> n in names && Placed(n, suffix)
    ensures forall x | x in Select(dir, names, suffix) ::
              exists n: FileName :: n in names && Placed(n, suffix) && x == Join(dir, n)
  {
    if names != [] {
      var init, last := names[..|names| - 1], names[|names| - 1];
      assert names == init + [last];
      SelectMembers(dir, init, suffix);
      forall n: FileName | Join(dir, n) in Select(dir, names, suffix)
        ensures n in names && Placed(n, suffix)
      {
        if Join(dir, n) !in Select(dir, init, suffix) {
          JoinInjective(dir, n, last);
        }
      }
    }
  }

  /** Each list keeps the sorted order of the listing. */
  lemma {:induction false} SelectSorted(dir: string, names: seq<FileName>, suffix: string)
    requires Sorted(names)
    ensures Sorted(Select(dir, names, suffix))
  {
    if names != [] {
      var init, last := names[..|names| - 1], names[|names| - 1];
      assert Sorted(init);
      SelectSorted(dir, init, suffix);
      if Placed(last, suffix) {
        var before := Select(dir, init, suffix);
        SelectMembers(dir, init, suffix);
        forall k | 0 <= k < |before| ensures !Below(Join(dir, last), before[k]) {
          assert before[k] in before;
          var n: FileName :| n in init && Placed(n, suffix) && before[k] == Join(dir, n);
          var j :| 0 <= j < |init| && init[j] == n;
          assert names[j] == n;
          JoinKeepsOrder(dir, last, n);
        }
      }
    }
  }

  /** A list holds the path of a listed name as many times as the listing
      holds the name when the name is placed in it, and never otherwise. */
  lemma {:induction false} SelectCount(dir: string, names: seq<FileName>, suffix: string, n: FileName)
    ensures multiset(Select(dir, names, suffix))[Join(dir, n)]
            == if Placed(n, suffix) then multiset(names)[n] else 0
  {
    if names != [] {
      var init, last := names[..|names| - 1], names[|names| - 1];
      assert names == init + [last];
      SelectCount(dir, init, suffix, n);
      if Join(dir, last) == Join(dir, n) {
        JoinInjective(dir, last, n);
      }
    }
  }

  /** One more step of the loop, for one list. */
  lemma SelectStep(dir: string, names: seq<FileName>, i: nat, suffix: string)
    requires i < |names|
    ensures Select(dir, names[..i + 1], suffix)
            == Select(dir, names[..i], suffix) + (if Placed(names[i], suffix) then [Join(dir, names[i])] else [])
  {
    assert names[..i + 1][..i] == names[..i];
  }

  /** `bucket` holds, in sorted order, the path of every listed name placed
      in the list for `suffix`, as often as the listing holds the name, and
      nothing else. */
  ghost predicate Classified(dir: string, listing: seq<FileName>, suffix: string, bucket: seq<string>) {
    && Sorted(bucket)
    && (forall n: FileName :: Join(dir, n) in bucket <==> n in listing && Placed(n, suffix))
    && (forall n: FileName :: multiset(bucket)[Join(dir, n)] == if Placed(n, suffix) then multiset(listing)[n] else 0)
    && (forall x | x in bucket :: exists n: FileName :: n in listing && Placed(n, suffix) && x == Join(dir, n))
  }

  /** Lists that are the `Select` of the sorted listing are classified. */
  lemma BucketsClassified(dir: string, listing: seq<FileName>, b: Buckets)
    requires forall ch :: b.Get(ch) == Select(dir, SortNames(listing), Suffix(ch))
    ensures forall ch :: Classified(dir, listing, Suffix(ch), b.Get(ch))
  {
    forall ch ensures Classified(dir, listing, Suffix(ch), b.Get(ch)) {
      BucketFacts(dir, listing, ch);
    }
  }

  /** The list for `ch`, over the sorted listing, is classified. */
  lemma BucketFacts(dir: string, listing: seq<FileName>, ch: Channel)
    ensures Classified(dir, listing, Suffix(ch), Select(dir, SortNames(listing), Suffix(ch)))
  {
    var names := SortNames(listing);
    SelectSorted(dir, names, Suffix(ch));
    SelectMembers(dir, names, Suffix(ch));
    forall n: FileName ensures n in names <==> n in listing {
      assert n in multiset(names) <==> n in multiset(listing);
    }
    forall n: FileName
      ensures multiset(Select(dir, names, Suffix(ch)))[Join(dir, n)]
              == if Placed(n, Suffix(ch)) then multiset(listing)[n] else 0
    {
      SelectCount(dir, names, Suffix(ch), n);
    }
  }

  /** The loop of `get_files`, over the names in the order it visits them:
      one list per suffix, each `.csv` name appended to every list whose
      suffix it contains. */
  method Bucketize(dir: string, names: seq<FileName>) returns (b: Buckets)
    ensures forall ch :: b.Get(ch) == Select(dir, names, Suffix(ch))
  {
    var hr, cal, step, stepDaily, align, synch := [], [], [], [], [], [];
    var i := 0;
    while i < |names|
      invariant i <= |names|
      invariant hr == Select(dir, names[..i], HrSuffix)
      invariant cal == Select(dir, names[..i], CalSuffix)
      invariant step == Select(dir, names[..i], StepSuffix)
      invariant stepDaily == Select(dir, names[..i], StepDailySuffix)
      invariant align == Select(dir, names[..i], AlignSuffix)
      invariant synch == Select(dir, names[..i], SynchSuffix)
    {
      var file := names[i];
      SelectStep(dir, names, i, HrSuffix);
      SelectStep(dir, names, i, CalSuffix);
      SelectStep(dir, names, i, StepSuffix);
      SelectStep(dir, names, i, StepDailySuffix);
      SelectStep(dir, names, i, AlignSuffix);
      SelectStep(dir, names, i, SynchSuffix);
      if Contains(file, ".csv") {
        if Contains(file, HrSuffix) {
          hr := hr + [Join(dir, file)];
        }
        if Contains(file, CalSuffix) {
          cal := cal + [Join(dir, file)];
        }
        if Contains(file, StepSuffix) {
          step := step + [Join(dir, file)];
        }
        if Contains(file, StepDailySuffix) {
          stepDaily := stepDaily + [Join(dir, file)];
        }
        if Contains(file, AlignSuffix) {
          align := align + [Join(dir, file)];
        }
        if Contains(file, SynchSuffix) {
          synch := synch + [Join(dir, file)];
        }
      }
      i := i + 1;
    }
    assert names[..|names|] == names;
    b := Buckets(hr, cal, step, stepDaily, align, synch);
  }

  /** `get_files` for the directory `dir`, given the names `os.listdir`
      returned for it: the loop over the sorted listing. */
  method GetFiles(dir: string, listing: seq<FileName>) returns (b: Buckets)
    ensures forall ch :: b.Get(ch) == Select(dir, SortNames(listing), Suffix(ch))
    ensures forall ch :: Classified(dir, listing, Suffix(ch), b.Get(ch))
  {
    b := Bucketize(dir, SortNames(listing));
    BucketsClassified(dir, listing, b);
  }
}
