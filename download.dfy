/** Fetching the quarterly Ookla open-data tiles: the S3 object key of a
    quarter, the local file name it is saved under (the name the internet
    aggregation stage reads back), and the download loop's counters. */
module Download {
  import opened Common

  /** Every published quarter, 2019 Q1 to 2025 Q3, oldest first. */
  const QUARTERS: seq<(nat, nat)> := [
    (2019, 1), (2019, 2), (2019, 3), (2019, 4),
    (2020, 1), (2020, 2), (2020, 3), (2020, 4),
    (2021, 1), (2021, 2), (2021, 3), (2021, 4),
    (2022, 1), (2022, 2), (2022, 3), (2022, 4),
    (2023, 1), (2023, 2), (2023, 3), (2023, 4),
    (2024, 1), (2024, 2), (2024, 3), (2024, 4),
    (2025, 1), (2025, 2), (2025, 3)]

  const DEFAULT_OUTPUT_DIR: string := "data/internet"

  const BUCKET: string := "ookla-open-data"

  predicate Before(a: (nat, nat), b: (nat, nat))
  {
    a.0 < b.0 || (a.0 == b.0 && a.1 < b.1)
  }

  /** The list has 27 quarters, each numbered 1 to 4, strictly increasing,
      from 2019 Q1 to 2025 Q3, so no quarter is fetched twice. */
  lemma QuartersOrdered()
    ensures |QUARTERS| == 27
    ensures QUARTERS[0] == (2019, 1) && QUARTERS[26] == (2025, 3)
    ensures forall i :: 0 <= i < |QUARTERS| ==> 1 <= QUARTERS[i].1 <= 4
    ensures forall i :: 0 <= i < |QUARTERS| - 1 ==> Before(QUARTERS[i], QUARTERS[i + 1])
    ensures NoDuplicates(QUARTERS)
  {
    forall i, j | 0 <= i < j < |QUARTERS| ensures Before(QUARTERS[i], QUARTERS[j]) {
      BeforeTransitive(i, j);
    }
  }

  lemma {:induction false} BeforeTransitive(i: nat, j: nat)
    requires i < j < |QUARTERS|
    requires forall k :: 0 <= k < |QUARTERS| - 1 ==> Before(QUARTERS[k], QUARTERS[k + 1])
    ensures Before(QUARTERS[i], QUARTERS[j])
    decreases j - i
  {
    if i + 1 < j {
      BeforeTransitive(i + 1, j);
    }
  }

  /** The month and day a quarter starts on (`quarter_dates`); `None` for a
      number outside 1..4, where the lookup raises `KeyError`. */
  function QuarterDate(quarter: nat): Option<string>
  {
    if quarter == 1 then Some("01-01")
    else if quarter == 2 then Some("04-01")
    else if quarter == 3 then Some("07-01")
    else if quarter == 4 then Some("10-01")
    else None
  }

  /** A month number as two digits. */
  function TwoDigits(n: nat): string
    requires n < 100
  {
    [DigitChar(n / 10), DigitChar(n % 10)]
  }

  /** The date is the first day of the quarter's first month, 3q - 2. */
  lemma QuarterDateIsQuarterStart(quarter: nat)
    ensures QuarterDate(quarter).Some? <==> 1 <= quarter <= 4
    ensures 1 <= quarter <= 4 ==> QuarterDate(quarter) == Some(TwoDigits(3 * quarter - 2) + "-01")
  {
    if quarter == 1 {
      assert TwoDigits(1) == "01";
      assert TwoDigits(1) + "-01" == "01-01";
    } else if quarter == 2 {
      assert 3 * quarter - 2 == 4;
      assert TwoDigits(4) == "04";
      assert TwoDigits(4) + "-01" == "04-01";
    } else if quarter == 3 {
      assert 3 * quarter - 2 == 7;
      assert TwoDigits(7) == "07";
      assert TwoDigits(7) + "-01" == "07-01";
    } else if quarter == 4 {
      assert 3 * quarter - 2 == 10;
      assert TwoDigits(10) == "10";
      assert TwoDigits(10) + "-01" == "10-01";
    }
  }

  /** The Hive-style partition directory of one quarter of one type. */
  function Partition(year: nat, quarter: nat, dataType: string): string
  {
    "parquet/performance/type=" + dataType + "/year=" + NatToString(year)
      + "/quarter=" + NatToString(quarter) + "/"
  }

  /** The object's file name, `{year}-{date}_performance_{type}_tiles.parquet`. */
  function ObjectName(year: nat, date: string, dataType: string): string
  {
    NatToString(year) + "-" + date + "_performance_" + dataType + "_tiles.parquet"
  }

  /** The S3 key of one quarter's tiles of one type; `None` where the
      date lookup raises. */
  function S3Key(year: nat, quarter: nat, dataType: string): Option<string>
  {
    match QuarterDate(quarter)
    case None => None
    case Some(d) => Some(Partition(year, quarter, dataType) + ObjectName(year, d, dataType))
  }

  /** Every listed quarter has a key: inside its type, year and quarter
      partition, naming the file of its start date and type. */
  lemma S3KeyShape(year: nat, quarter: nat, dataType: string)
    requires 1 <= quarter <= 4
    ensures S3Key(year, quarter, dataType).Some?
    ensures StartsWith(S3Key(year, quarter, dataType).value, Partition(year, quarter, dataType))
    ensures EndsWith(S3Key(year, quarter, dataType).value,
      ObjectName(year, TwoDigits(3 * quarter - 2) + "-01", dataType))
  {
    QuarterDateIsQuarterStart(quarter);
    var d := QuarterDate(quarter).value;
    StartsWithConcat(Partition(year, quarter, dataType), ObjectName(year, d, dataType));
    EndsWithConcat(Partition(year, quarter, dataType), ObjectName(year, d, dataType));
  }

  /** The local file name: `{output_dir}/{year}_q{quarter}_{type}.parquet`. */
  function LocalFile(outputDir: string, year: nat, quarter: nat, dataType: string): string
  {
    outputDir + "/" + NatToString(year) + "_q" + NatToString(quarter) + "_" + dataType + ".parquet"
  }

  /** The file name's stem, `{year}_q{quarter}_{type}`. */
  function LocalStem(year: nat, quarter: nat, dataType: string): string
  {
    NatToString(year) + "_q" + NatToString(quarter) + "_" + dataType
  }

  /** What `download_quarter` returns, or that it raised. */
  datatype DownloadResult = KeyError | Saved(path: string) | DownloadFailed

  /** `download_quarter`: `localExists` is the check on the local file,
      `fetchOk` whether the S3 download succeeds. */
  function DownloadQuarter(year: nat, quarter: nat, dataType: string, outputDir: string,
                           localExists: bool, fetchOk: bool): (r: DownloadResult)
    ensures r.KeyError? <==> !(1 <= quarter <= 4)
    ensures r.Saved? ==> r.path == LocalFile(outputDir, year, quarter, dataType)
    ensures r.DownloadFailed? <==> 1 <= quarter <= 4 && !localExists && !fetchOk
  {
    if QuarterDate(quarter).None? then KeyError
    else if localExists then Saved(LocalFile(outputDir, year, quarter, dataType))
    else if fetchOk then Saved(LocalFile(outputDir, year, quarter, dataType))
    else DownloadFailed
  }

  /** The outcome for one listed quarter in `main`: the file checks are
      looked up by local path, the download outcome by S3 key. */
  function QuarterResult(q: (nat, nat), dataType: string, onDisk: string -> bool, fetch: string -> bool): DownloadResult
  {
    var key := S3Key(q.0, q.1, dataType);
    DownloadQuarter(q.0, q.1, dataType, DEFAULT_OUTPUT_DIR,
      onDisk(LocalFile(DEFAULT_OUTPUT_DIR, q.0, q.1, dataType)), key.Some? && fetch(key.value))
  }

  /** Number of quarters whose result is a saved file. */
  function CountSaved(qs: seq<(nat, nat)>, dataType: string, onDisk: string -> bool, fetch: string -> bool): (n: nat)
    ensures n <= |qs|
  {
    if qs == [] then 0
    else
      var last := if QuarterResult(qs[|qs| - 1], dataType, onDisk, fetch).Saved? then 1 else 0;
      CountSaved(qs[..|qs| - 1], dataType, onDisk, fetch) + last
  }

  /** `main`'s loop: each listed quarter counts as downloaded or failed. */
  method DownloadAll(dataType: string, onDisk: string -> bool, fetch: string -> bool)
    returns (downloaded: nat, failed: nat)
    ensures downloaded == CountSaved(QUARTERS, dataType, onDisk, fetch)
    ensures downloaded + failed == |QUARTERS| == 27
  {
    var qs := QUARTERS;
    downloaded, failed := 0, 0;
    for i := 0 to |qs|
      invariant downloaded == CountSaved(qs[..i], dataType, onDisk, fetch)
      invariant downloaded + failed == i
    {
      CountSavedStep(qs, i, dataType, onDisk, fetch);
      var r := QuarterResult(qs[i], dataType, onDisk, fetch);
      if r.Saved? {
        downloaded := downloaded + 1;
      } else {
        failed := failed + 1;
      }
    }
    assert qs[..|qs|] == qs;
    QuartersOrdered();
  }

  /** Counting one more quarter adds one exactly when it is saved. */
  lemma CountSavedStep(qs: seq<(nat, nat)>, i: nat, dataType: string, onDisk: string -> bool, fetch: string -> bool)
    requires i < |qs|
    ensures CountSaved(qs[..i + 1], dataType, onDisk, fetch)
      == CountSaved(qs[..i], dataType, onDisk, fetch) + (if QuarterResult(qs[i], dataType, onDisk, fetch).Saved? then 1 else 0)
  {
    assert qs[..i + 1][..i] == qs[..i];
  }

  /** With every local file present, nothing is fetched and every quarter
      counts as downloaded. */
  lemma {:induction false} AllPresentAllSaved(qs: seq<(nat, nat)>, dataType: string, onDisk: string -> bool, fetch: string -> bool)
    requires forall i :: 0 <= i < |qs| ==> 1 <= qs[i].1 <= 4
    requires forall i :: 0 <= i < |qs| ==> onDisk(LocalFile(DEFAULT_OUTPUT_DIR, qs[i].0, qs[i].1, dataType))
    ensures CountSaved(qs, dataType, onDisk, fetch) == |qs|
    decreases |qs|
  {
    if qs != [] {
      AllPresentAllSaved(qs[..|qs| - 1], dataType, onDisk, fetch);
    }
  }
}
