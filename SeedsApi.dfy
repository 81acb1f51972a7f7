/** The cloud functions of functions/src/index.ts, minus their Firestore and HTTP
    plumbing: the seed names handed to clients (12 royale seeds, and a daily and an
    hourly seed per environment), the ordered validation of a replay upload, and the
    document an accepted upload stores. The clock is passed in as its fields. */
module SeedsApi {
  import opened Wrappers
  import opened Strings
  import opened Replays
  import opened Utf8Zip

  // ---------------------------------------------------------------------------
  // Seed names

  const NumberOfDifferentRoyaleReplays := 12

  /** The fields of `new Date()` the seed names use; `month` is 0-based as
      `getMonth()` returns it. */
  datatype Clock = Clock(year: int, month: int, day: int, hour: int)

  /** A seed name begins with the API version and a dash, so seeds of different
      versions never collide. */
  predicate Versioned(version: string, s: string)
  {
    |s| > |version| + 1 && s[..|version| + 1] == version + "-"
  }

  /** `dailySeed(version, offset)`: the offset is added to the day of the month, with
      no rollover into the next month. */
  function DailySeed(version: string, clock: Clock, offset: int): (s: string)
    ensures Versioned(version, s)
  {
    VersionedExtends(version, DatePrefix(version, clock), IntToString(clock.day + offset));
    DatePrefix(version, clock) + IntToString(clock.day + offset)
  }

  lemma VersionedExtends(version: string, p: string, rest: string)
    requires Versioned(version, p)
    ensures Versioned(version, p + rest)
  {
    assert (p + rest)[..|version| + 1] == p[..|version| + 1];
  }

  /** The hourly seed before its trailing `}`. */
  function HourStem(version: string, clock: Clock, offset: int): (s: string)
    ensures Versioned(version, s)
  {
    VersionedExtends(version, DatePrefix(version, clock),
                     IntToString(clock.day) + "-" + IntToString(clock.hour + offset));
    assert DatePrefix(version, clock) + IntToString(clock.day) + "-" + IntToString(clock.hour + offset)
        == DatePrefix(version, clock) + (IntToString(clock.day) + "-" + IntToString(clock.hour + offset));
    DatePrefix(version, clock) + IntToString(clock.day) + "-" + IntToString(clock.hour + offset)
  }

  /** `${version}-${year}-${month}-`, shared by both seed names. */
  function DatePrefix(version: string, clock: Clock): (p: string)
    ensures Versioned(version, p)
  {
    var year := version + "-" + IntToString(clock.year);
    assert Versioned(version, year) by {
      assert year[..|version| + 1] == version + "-";
    }
    VersionedExtends(version, year, "-" + IntToString(clock.month) + "-");
    version + "-" + IntToString(clock.year) + "-" + IntToString(clock.month) + "-"
  }

  /** `hourlySeed(version, offset)`; the template literal ends in a stray `}`. */
  function HourlySeed(version: string, clock: Clock, offset: int): (s: string)
    ensures Versioned(version, s)
    ensures |s| >= 1 && s[|s| - 1] == '}'
  {
    VersionedExtends(version, HourStem(version, clock, offset), "}");
    HourStem(version, clock, offset) + "}"
  }

  /** `${version}-royale-${i}` for i = 0..11. */
  function RoyaleSeeds(version: string): (seeds: seq<string>)
    ensures |seeds| == NumberOfDifferentRoyaleReplays
    ensures forall i :: 0 <= i < |seeds| ==> seeds[i] == version + "-royale-" + NatToString(i)
    ensures forall i :: 0 <= i < |seeds| ==> Versioned(version, seeds[i])
  {
    seq(NumberOfDifferentRoyaleReplays, i requires 0 <= i => version + "-royale-" + NatToString(i))
  }

  datatype Environments = Environments(dev: string, staging: string, production: string)

  /** The body of the `seeds` response, without `expiry` (which reads the clock's
      minutes and time zone). */
  datatype SeedsResponse = SeedsResponse(royale: seq<string>, daily: Environments, hourly: Environments)

  /** dev, staging and production are offset by 2, 1 and 0. */
  function Seeds(version: string, clock: Clock): (r: SeedsResponse)
    ensures |r.royale| == NumberOfDifferentRoyaleReplays
    ensures Versioned(version, r.daily.dev) && Versioned(version, r.daily.staging) && Versioned(version, r.daily.production)
    ensures Versioned(version, r.hourly.dev) && Versioned(version, r.hourly.staging) && Versioned(version, r.hourly.production)
    ensures forall i :: 0 <= i < |r.royale| ==> Versioned(version, r.royale[i])
  {
    SeedsResponse(RoyaleSeeds(version),
                  Environments(DailySeed(version, clock, 2), DailySeed(version, clock, 1), DailySeed(version, clock, 0)),
                  Environments(HourlySeed(version, clock, 2), HourlySeed(version, clock, 1), HourlySeed(version, clock, 0)))
  }

  lemma PrefixCancels(p: string, a: string, b: string)
    requires p + a == p + b
    ensures a == b
  {
    assert a == (p + a)[|p|..];
  }

  /** The twelve royale seeds are pairwise different. */
  lemma RoyaleSeedsDistinct(version: string, i: nat, j: nat)
    requires i < j < NumberOfDifferentRoyaleReplays
    ensures RoyaleSeeds(version)[i] != RoyaleSeeds(version)[j]
  {
    var p := version + "-royale-";
    if RoyaleSeeds(version)[i] == RoyaleSeeds(version)[j] {
      PrefixCancels(p, NatToString(i), NatToString(j));
      NatToStringInjective(i, j);
    }
  }

  /** A daily seed is the offset-free seed of the shifted day. */
  lemma DailySeedShiftsTheDay(version: string, clock: Clock, offset: int)
    ensures DailySeed(version, clock, offset) == DailySeed(version, clock.(day := clock.day + offset), 0)
  {
  }

  /** Different offsets give different daily seeds. */
  lemma DailySeedsDiffer(version: string, clock: Clock, a: int, b: int)
    requires a != b
    ensures DailySeed(version, clock, a) != DailySeed(version, clock, b)
  {
    var p := DatePrefix(version, clock);
    if DailySeed(version, clock, a) == DailySeed(version, clock, b) {
      PrefixCancels(p, IntToString(clock.day + a), IntToString(clock.day + b));
      IntToStringInjective(clock.day + a, clock.day + b);
    }
  }

  /** Different offsets give different hourly seeds. */
  lemma HourlySeedsDiffer(version: string, clock: Clock, a: int, b: int)
    requires a != b
    ensures HourlySeed(version, clock, a) != HourlySeed(version, clock, b)
  {
    HourStemsDiffer(version, clock, a, b);
    StemOfHourlySeed(version, clock, a);
    StemOfHourlySeed(version, clock, b);
  }

  lemma StemOfHourlySeed(version: string, clock: Clock, offset: int)
    ensures var s := HourlySeed(version, clock, offset); s[..|s| - 1] == HourStem(version, clock, offset)
  {
  }

  lemma HourStemsDiffer(version: string, clock: Clock, a: int, b: int)
    requires a != b
    ensures HourStem(version, clock, a) != HourStem(version, clock, b)
  {
    var p := DatePrefix(version, clock) + IntToString(clock.day) + "-";
    if HourStem(version, clock, a) == HourStem(version, clock, b) {
      PrefixCancels(p, IntToString(clock.hour + a), IntToString(clock.hour + b));
      IntToStringInjective(clock.hour + a, clock.hour + b);
    }
  }

  /** The three environments get different daily and different hourly seeds. */
  lemma EnvironmentSeedsDiffer(version: string, clock: Clock)
    ensures var r := Seeds(version, clock);
      r.daily.dev != r.daily.staging && r.daily.staging != r.daily.production && r.daily.dev != r.daily.production
    ensures var r := Seeds(version, clock);
      r.hourly.dev != r.hourly.staging && r.hourly.staging != r.hourly.production && r.hourly.dev != r.hourly.production
  {
    DailySeedsDiffer(version, clock, 2, 1);
    DailySeedsDiffer(version, clock, 1, 0);
    DailySeedsDiffer(version, clock, 2, 0);
    HourlySeedsDiffer(version, clock, 2, 1);
    HourlySeedsDiffer(version, clock, 1, 0);
    HourlySeedsDiffer(version, clock, 2, 0);
  }

  // ---------------------------------------------------------------------------
  // addReplayToSeed

  /** The parsed upload body; any field may be missing. */
  datatype ReplayUploadRequest = ReplayUploadRequest(seed: Option<string>, uuid: Option<string>, version: Option<string>,
                                                     data: Option<PlayerData>, mode: Option<int>)

  /** JavaScript truthiness of an optional string and an optional number. */
  predicate TruthyText(s: Option<string>) { s.Some? && s.value != "" }
  predicate TruthyNumber(n: Option<int>) { n.Some? && n.value != 0 }

  const UuidError := "Needs a uuid in request"
  const VersionError := "Needs a version in request"
  const DataError := "Needs a data of type PlayerData in request"
  const ModeError := "Needs a game mode in request"

  /** The 400 message for the first missing field, checked in the order uuid, version,
      data, mode; None when the request passes. */
  function ValidateUpload(req: ReplayUploadRequest): (error: Option<string>)
    ensures error.None? <==> TruthyText(req.uuid) && TruthyText(req.version) && req.data.Some? && TruthyNumber(req.mode)
    ensures error == Some(UuidError) <==> !TruthyText(req.uuid)
    ensures error == Some(VersionError) <==> TruthyText(req.uuid) && !TruthyText(req.version)
    ensures error == Some(DataError) <==> TruthyText(req.uuid) && TruthyText(req.version) && req.data.None?
    ensures error == Some(ModeError) <==>
      TruthyText(req.uuid) && TruthyText(req.version) && req.data.Some? && !TruthyNumber(req.mode)
  {
    if !TruthyText(req.uuid) then Some(UuidError)
    else if !TruthyText(req.version) then Some(VersionError)
    else if req.data.None? then Some(DataError)
    else if !TruthyNumber(req.mode) then Some(ModeError)
    else None
  }

  /** The seed is never checked: the verdict does not depend on it. */
  lemma ValidationIgnoresSeed(req: ReplayUploadRequest, seed: Option<string>)
    ensures ValidateUpload(req.(seed := seed)) == ValidateUpload(req)
  {
  }

  /** The stored document of a seed: its replays, zipped. */
  datatype SeedDataZipped = SeedDataZipped(replaysZipped: Option<string>)

  /** What the handler does: answers 400, writes a document, or fails with an exception. */
  datatype UploadOutcome = BadRequest(error: string) | Saved(document: SeedDataZipped) | Failed

  /** `processNewRecording(seedData, data, uuid, mode)`, whose merge is not part of this
      model: it receives the unzipped replays (None for `undefined`). */
  type Merge = (Option<seq<PlayerData>>, PlayerData, string, int) -> seq<PlayerData>

  /** `addReplayToSeed` given the seed's current document (None when there is none). */
  function AddReplayToSeed(req: ReplayUploadRequest, existing: Option<SeedDataZipped>,
                           codec: Codec<seq<PlayerData>>, merge: Merge): (r: UploadOutcome)
    ensures r.BadRequest? <==> ValidateUpload(req).Some?
    ensures r.BadRequest? ==> r.error == ValidateUpload(req).value
  {
    match ValidateUpload(req)
    case Some(error) => BadRequest(error)
    case None =>
      if existing.None? then Saved(SeedDataZipped(Some(ZippedObj(codec, [req.data.value]))))
      else
        match Unzip(codec, existing.value.replaysZipped)
        case Threw => Failed
        case Returned(replays) =>
          Saved(SeedDataZipped(Some(ZippedObj(codec, merge(replays, req.data.value, req.uuid.value, req.mode.value)))))
  }

  /** The first upload for a seed stores exactly that one replay. */
  lemma FirstUploadStoresOnlyIt(req: ReplayUploadRequest, codec: Codec<seq<PlayerData>>, merge: Merge)
    requires Lawful(codec) && ValidateUpload(req).None?
    ensures var r := AddReplayToSeed(req, None, codec, merge);
      r.Saved? && Unzip(codec, r.document.replaysZipped) == Returned(Some([req.data.value]))
  {
    UnzipZippedObj(codec, [req.data.value]);
  }

  /** A later upload hands the merge exactly what the previous save stored. */
  lemma LaterUploadMergesStoredReplays(req: ReplayUploadRequest, stored: seq<PlayerData>,
                                       codec: Codec<seq<PlayerData>>, merge: Merge)
    requires Lawful(codec) && ValidateUpload(req).None?
    ensures AddReplayToSeed(req, Some(SeedDataZipped(Some(ZippedObj(codec, stored)))), codec, merge)
      == Saved(SeedDataZipped(Some(ZippedObj(codec, merge(Some(stored), req.data.value, req.uuid.value, req.mode.value)))))
  {
    UnzipZippedObj(codec, stored);
  }
}
