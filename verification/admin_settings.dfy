/** The dataset upload settings of the admin page: the S3 multipart limits,
    the two computed hints, the accept/reject rule of the save button, and
    what the page reads back on the next load. */
module AdminSettings {
  import opened Options
  import opened Decimal

  // S3 multipart limits, in MiB and parts.
  const MinPartSizeMiB := 5
  const MaxPartSizeMiB := 5120
  const MaxFileSizeMiB := 5242880
  const MaxTotalParts := 10000

  // Setting keys.
  const MaxConcurrentFilesKey := "max_number_of_concurrent_uploading_file"
  const MaxFileSizeKey := "single_file_upload_max_size_mib"
  const MaxConcurrentChunksKey := "max_number_of_concurrent_uploading_file_chunks"
  const ChunkSizeKey := "multipart_upload_chunk_size_mib"

  /** The four numeric fields of the form. */
  datatype DatasetSettings = DatasetSettings(
    maxConcurrentFiles: int,
    maxFileSizeMiB: int,
    maxConcurrentChunks: int,
    chunkSizeMiB: int)

  /** The page's initial values, before the stored ones arrive. */
  function DefaultSettings(): DatasetSettings
  {
    DatasetSettings(3, 20, 10, 50)
  }

  // ---------------------------------------------------------------------
  // Arithmetic

  /** `Math.ceil(a / b)` for integers, `b` non-zero. */
  function CeilDiv(a: int, b: int): (r: int)
    requires b != 0
    ensures b > 0 ==> (r - 1) * b < a <= r * b
    ensures b < 0 ==> r * b <= a < (r - 1) * b
  {
    if b > 0 then -((-a) / b) else -(a / (-b))
  }

  /** `partsAtMax`: how many parts a file of the maximum size needs; 0
      while either field is 0 (falsy). */
  function PartsAtMax(maxFileSizeMiB: int, chunkSizeMiB: int): (r: int)
    ensures maxFileSizeMiB == 0 || chunkSizeMiB == 0 ==> r == 0
    ensures maxFileSizeMiB != 0 && chunkSizeMiB > 0 ==>
      (r - 1) * chunkSizeMiB < maxFileSizeMiB <= r * chunkSizeMiB
    ensures maxFileSizeMiB != 0 && chunkSizeMiB < 0 ==>
      r * chunkSizeMiB <= maxFileSizeMiB < (r - 1) * chunkSizeMiB
    ensures maxFileSizeMiB > 0 && chunkSizeMiB > 0 ==> r >= 1
  {
    if maxFileSizeMiB == 0 || chunkSizeMiB == 0 then 0
    else CeilDiv(maxFileSizeMiB, chunkSizeMiB)
  }

  /** `requiredMinPartSizeMiB`: the smallest part size that keeps a file of
      the maximum size within the parts limit, and never below the S3
      minimum. */
  function RequiredMinPartSizeMiB(maxFileSizeMiB: int): (r: int)
    ensures r >= MinPartSizeMiB
    ensures r * MaxTotalParts >= maxFileSizeMiB
    ensures maxFileSizeMiB <= MinPartSizeMiB * MaxTotalParts ==> r == MinPartSizeMiB
  {
    if maxFileSizeMiB == 0 then MinPartSizeMiB
    else
      var byPartsLimit := CeilDiv(maxFileSizeMiB, MaxTotalParts);
      if MinPartSizeMiB >= byPartsLimit then MinPartSizeMiB else byPartsLimit
  }

  lemma MulMonotone(a: int, b: int, c: int)
    requires a <= b && c >= 0
    ensures a * c <= b * c
  {
  }

  /** For a positive file and part size, the parts limit holds exactly when
      the parts together can hold the file. */
  lemma PartsLimitExact(maxFileSizeMiB: int, chunkSizeMiB: int)
    requires maxFileSizeMiB >= 1 && chunkSizeMiB >= 1
    ensures PartsAtMax(maxFileSizeMiB, chunkSizeMiB) <= MaxTotalParts
        <==> chunkSizeMiB * MaxTotalParts >= maxFileSizeMiB
  {
    var p := PartsAtMax(maxFileSizeMiB, chunkSizeMiB);
    if p <= MaxTotalParts {
      MulMonotone(p, MaxTotalParts, chunkSizeMiB);
    } else {
      MulMonotone(MaxTotalParts, p - 1, chunkSizeMiB);
    }
  }

  /** What the error message promises: a part size of at least the
      suggested one brings a positive file size within the parts limit. */
  lemma SuggestedPartSizeSuffices(maxFileSizeMiB: int, chunkSizeMiB: int)
    requires maxFileSizeMiB >= 1 && chunkSizeMiB >= RequiredMinPartSizeMiB(maxFileSizeMiB)
    ensures PartsAtMax(maxFileSizeMiB, chunkSizeMiB) <= MaxTotalParts
  {
    var r := RequiredMinPartSizeMiB(maxFileSizeMiB);
    assert chunkSizeMiB * MaxTotalParts >= r * MaxTotalParts;
    PartsLimitExact(maxFileSizeMiB, chunkSizeMiB);
  }

  /** And the suggestion is the least such size: a part size of at least
      the S3 minimum that meets the parts limit is at least the suggested
      one. */
  lemma SuggestedPartSizeIsLeast(maxFileSizeMiB: int, chunkSizeMiB: int)
    requires maxFileSizeMiB >= 1 && chunkSizeMiB >= MinPartSizeMiB
    requires PartsAtMax(maxFileSizeMiB, chunkSizeMiB) <= MaxTotalParts
    ensures chunkSizeMiB >= RequiredMinPartSizeMiB(maxFileSizeMiB)
  {
    PartsLimitExact(maxFileSizeMiB, chunkSizeMiB);
  }

  /** Together: for a positive file size, a part size meets both the S3
      minimum and the parts limit exactly when it is at least the
      suggested one. */
  lemma SuggestedPartSizeExact(maxFileSizeMiB: int, chunkSizeMiB: int)
    requires maxFileSizeMiB >= 1
    ensures chunkSizeMiB >= RequiredMinPartSizeMiB(maxFileSizeMiB)
        <==> chunkSizeMiB >= MinPartSizeMiB && PartsAtMax(maxFileSizeMiB, chunkSizeMiB) <= MaxTotalParts
  {
    if chunkSizeMiB >= RequiredMinPartSizeMiB(maxFileSizeMiB) {
      SuggestedPartSizeSuffices(maxFileSizeMiB, chunkSizeMiB);
    }
    if chunkSizeMiB >= MinPartSizeMiB && PartsAtMax(maxFileSizeMiB, chunkSizeMiB) <= MaxTotalParts {
      SuggestedPartSizeIsLeast(maxFileSizeMiB, chunkSizeMiB);
    }
  }

  // ---------------------------------------------------------------------
  // Saving

  /** The result of the save button: one of the two error messages, or the
      four key/value pairs sent to the settings service. */
  datatype SaveOutcome =
    | InvalidValues
    | TooManyParts(parts: int, minPartSizeMiB: int)
    | Written(writes: seq<(string, string)>)

  predicate AllAtLeastOne(s: DatasetSettings)
  {
    s.maxFileSizeMiB >= 1 && s.maxConcurrentFiles >= 1 && s.maxConcurrentChunks >= 1 && s.chunkSizeMiB >= 1
  }

  /** The validation branch of `saveDatasetSettings`. */
  function SaveDatasetSettings(s: DatasetSettings): (r: SaveOutcome)
    ensures r == InvalidValues <==> !AllAtLeastOne(s)
    ensures AllAtLeastOne(s) && s.chunkSizeMiB * MaxTotalParts < s.maxFileSizeMiB ==> r.TooManyParts?
    ensures r.TooManyParts? ==>
      && AllAtLeastOne(s)
      && r.parts > MaxTotalParts
      && s.chunkSizeMiB * MaxTotalParts < s.maxFileSizeMiB
      && r.minPartSizeMiB > s.chunkSizeMiB
    ensures r.TooManyParts? ==>
      && r.parts == PartsAtMax(s.maxFileSizeMiB, s.chunkSizeMiB)
      && r.minPartSizeMiB == RequiredMinPartSizeMiB(s.maxFileSizeMiB)
    ensures r.Written? <==>
      AllAtLeastOne(s) && s.chunkSizeMiB * MaxTotalParts >= s.maxFileSizeMiB
    ensures r.Written? ==> |r.writes| == 4
  {
    if !AllAtLeastOne(s) then InvalidValues
    else
      var parts := PartsAtMax(s.maxFileSizeMiB, s.chunkSizeMiB);
      PartsLimitExact(s.maxFileSizeMiB, s.chunkSizeMiB);
      if parts > MaxTotalParts then
        var suggested := RequiredMinPartSizeMiB(s.maxFileSizeMiB);
        assert suggested > s.chunkSizeMiB by {
          if s.chunkSizeMiB >= suggested {
            SuggestedPartSizeSuffices(s.maxFileSizeMiB, s.chunkSizeMiB);
          }
        }
        TooManyParts(parts, suggested)
      else
        Written([(MaxConcurrentFilesKey, IntToString(s.maxConcurrentFiles)),
                 (MaxFileSizeKey, IntToString(s.maxFileSizeMiB)),
                 (MaxConcurrentChunksKey, IntToString(s.maxConcurrentChunks)),
                 (ChunkSizeKey, IntToString(s.chunkSizeMiB))])
  }

  // ---------------------------------------------------------------------
  // The settings store

  /** The stored settings, key to string value. */
  type Store = map<string, string>

  function ApplyWrites(store: Store, writes: seq<(string, string)>): (r: Store)
    ensures forall k :: k in store ==> k in r
    decreases |writes|
  {
    if |writes| == 0 then store
    else ApplyWrites(store[writes[0].0 := writes[0].1], writes[1..])
  }

  /** The store after the save button. */
  function AfterSave(store: Store, s: DatasetSettings): Store
  {
    match SaveDatasetSettings(s)
    case Written(writes) => ApplyWrites(store, writes)
    case _ => store
  }

  /** One setting read by `getSetting` and `parseInt`; an absent key reads
      as `undefined`, which parses as `NaN` (`None`). */
  function ReadInt(store: Store, key: string): Option<int>
  {
    if key in store then ParseInt(store[key]) else None
  }

  /** The four fields as `loadDatasetSettings` leaves them; `None` is a
      field that became `NaN`. */
  datatype LoadedSettings = LoadedSettings(
    maxConcurrentFiles: Option<int>,
    maxFileSizeMiB: Option<int>,
    maxConcurrentChunks: Option<int>,
    chunkSizeMiB: Option<int>)

  /** The form values as they read back when every field parsed. */
  function Loaded(s: DatasetSettings): LoadedSettings
  {
    LoadedSettings(Some(s.maxConcurrentFiles), Some(s.maxFileSizeMiB),
                   Some(s.maxConcurrentChunks), Some(s.chunkSizeMiB))
  }

  /** `loadDatasetSettings`: four separate reads, each field set from its
      own key alone; a missing key or an unparsable value spoils only its
      own field. */
  function LoadDatasetSettings(store: Store): (r: LoadedSettings)
    ensures MaxConcurrentFilesKey !in store ==> r.maxConcurrentFiles.None?
    ensures MaxFileSizeKey !in store ==> r.maxFileSizeMiB.None?
    ensures MaxConcurrentChunksKey !in store ==> r.maxConcurrentChunks.None?
    ensures ChunkSizeKey !in store ==> r.chunkSizeMiB.None?
    ensures MaxConcurrentFilesKey in store ==> r.maxConcurrentFiles == ParseInt(store[MaxConcurrentFilesKey])
    ensures MaxFileSizeKey in store ==> r.maxFileSizeMiB == ParseInt(store[MaxFileSizeKey])
    ensures MaxConcurrentChunksKey in store ==> r.maxConcurrentChunks == ParseInt(store[MaxConcurrentChunksKey])
    ensures ChunkSizeKey in store ==> r.chunkSizeMiB == ParseInt(store[ChunkSizeKey])
  {
    LoadedSettings(ReadInt(store, MaxConcurrentFilesKey), ReadInt(store, MaxFileSizeKey),
                   ReadInt(store, MaxConcurrentChunksKey), ReadInt(store, ChunkSizeKey))
  }

  /** A rejected save leaves the store as it was. */
  lemma RejectedSaveWritesNothing(store: Store, s: DatasetSettings)
    requires !SaveDatasetSettings(s).Written?
    ensures AfterSave(store, s) == store
  {
  }

  lemma KeysDistinct()
    ensures MaxConcurrentFilesKey != MaxFileSizeKey && MaxConcurrentFilesKey != MaxConcurrentChunksKey
    ensures MaxConcurrentFilesKey != ChunkSizeKey && MaxFileSizeKey != MaxConcurrentChunksKey
    ensures MaxFileSizeKey != ChunkSizeKey && MaxConcurrentChunksKey != ChunkSizeKey
  {
    assert MaxFileSizeKey[0] != ChunkSizeKey[0];
  }

  /** The four pairs of an accepted save. */
  lemma WrittenPairs(store: Store, s: DatasetSettings)
    requires SaveDatasetSettings(s).Written?
    ensures AfterSave(store, s)
         == store[MaxConcurrentFilesKey := IntToString(s.maxConcurrentFiles)]
                 [MaxFileSizeKey := IntToString(s.maxFileSizeMiB)]
                 [MaxConcurrentChunksKey := IntToString(s.maxConcurrentChunks)]
                 [ChunkSizeKey := IntToString(s.chunkSizeMiB)]
  {
    var w := SaveDatasetSettings(s).writes;
    var m1 := store[MaxConcurrentFilesKey := IntToString(s.maxConcurrentFiles)];
    var m2 := m1[MaxFileSizeKey := IntToString(s.maxFileSizeMiB)];
    var m3 := m2[MaxConcurrentChunksKey := IntToString(s.maxConcurrentChunks)];
    var m4 := m3[ChunkSizeKey := IntToString(s.chunkSizeMiB)];
    assert ApplyWrites(m4, w[4..]) == m4;
    assert ApplyWrites(m3, w[3..]) == ApplyWrites(m4, w[4..]) by { assert w[3..][1..] == w[4..]; }
    assert ApplyWrites(m2, w[2..]) == ApplyWrites(m3, w[3..]) by { assert w[2..][1..] == w[3..]; }
    assert ApplyWrites(m1, w[1..]) == ApplyWrites(m2, w[2..]) by { assert w[1..][1..] == w[2..]; }
    assert ApplyWrites(store, w) == ApplyWrites(m1, w[1..]);
  }

  /** An accepted save, read back on the next load, gives the same four
      values, whatever the store held before. */
  lemma AcceptedSettingsRoundTrip(store: Store, s: DatasetSettings)
    requires SaveDatasetSettings(s).Written?
    ensures LoadDatasetSettings(AfterSave(store, s)) == Loaded(s)
  {
    WrittenPairs(store, s);
    KeysDistinct();
    var r := AfterSave(store, s);
    assert r[MaxConcurrentFilesKey] == IntToString(s.maxConcurrentFiles);
    assert r[MaxFileSizeKey] == IntToString(s.maxFileSizeMiB);
    assert r[MaxConcurrentChunksKey] == IntToString(s.maxConcurrentChunks);
    assert r[ChunkSizeKey] == IntToString(s.chunkSizeMiB);
    ParseIntOfIntToString(s.maxConcurrentFiles);
    ParseIntOfIntToString(s.maxFileSizeMiB);
    ParseIntOfIntToString(s.maxConcurrentChunks);
    ParseIntOfIntToString(s.chunkSizeMiB);
  }

  /** The fields load independently: changing the stored value of one key
      changes that field alone, even when the new value does not parse. */
  lemma LoadFieldsIndependent(store: Store, v: string)
    ensures LoadDatasetSettings(store[MaxConcurrentFilesKey := v])
         == LoadDatasetSettings(store).(maxConcurrentFiles := ParseInt(v))
    ensures LoadDatasetSettings(store[MaxFileSizeKey := v])
         == LoadDatasetSettings(store).(maxFileSizeMiB := ParseInt(v))
    ensures LoadDatasetSettings(store[MaxConcurrentChunksKey := v])
         == LoadDatasetSettings(store).(maxConcurrentChunks := ParseInt(v))
    ensures LoadDatasetSettings(store[ChunkSizeKey := v])
         == LoadDatasetSettings(store).(chunkSizeMiB := ParseInt(v))
  {
  }

  /** The save check does not enforce the S3 minimum part size: a 1 MiB
      part size is accepted. */
  lemma PartSizeBelowMinimumAccepted()
    ensures SaveDatasetSettings(DatasetSettings(3, 20, 10, 1)).Written?
  {
  }

  /** Nor the S3 maximum object size: a file size above 5 TiB is accepted
      with a part size that keeps it within the parts limit. */
  lemma FileSizeAboveMaximumAccepted()
    ensures SaveDatasetSettings(DatasetSettings(3, MaxFileSizeMiB + 1, 10, MaxPartSizeMiB)).Written?
  {
  }
}
