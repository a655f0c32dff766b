/** convert_raw_to_csv in rawtocsv.py: the .raw files of the simulation directory are each read
    with rawread, and the first array read is written to a .csv file named after the .raw file.

    The directory is its existence flag and its listing, in the order os.listdir returns it, or
    None when os.listdir raises (the path is not a directory, or it cannot be read); a file's contents are what `contents` gives for its name, None when open() fails. The CSV written is described by its
    name, its header and the array it is made from. */
module RawConvert {
  import opened Text
  import opened RawRead

  const RawExt: string := ".raw"
  const CsvExt: string := ".csv"

  /** What happened to one .raw file: converted into the named CSV file, or the exception
      caught and reported. */
  datatype FileReport =
    | Converted(raw: string, csv: string, headers: seq<string>, data: Arr)
    | Failed(raw: string, error: RawError)

  /** The whole run: the directory is missing, os.listdir raises an OSError that propagates out
      of convert_raw_to_csv, it has no .raw file, or one report per .raw file. */
  datatype ConvertReport = NoDirectory | ListingRaised | NoRawFiles | Processed(files: seq<FileReport>)

  // ---------------------------------------------------------------------------------------------
  // Names

  /** [f for f in os.listdir(sim_dir) if f.endswith(".raw")] */
  function RawFiles(listing: seq<string>): (r: seq<string>)
    ensures |r| <= |listing|
    ensures forall f :: f in r <==> f in listing && EndsWith(f, RawExt)
  {
    if listing == [] then []
    else (if EndsWith(listing[0], RawExt) then [listing[0]] else []) + RawFiles(listing[1..])
  }

  /** The filter keeps every .raw name as often as the listing has it, and nothing else. */
  lemma {:induction false} RawFilesCount(listing: seq<string>, f: string)
    ensures multiset(RawFiles(listing))[f] == if EndsWith(f, RawExt) then multiset(listing)[f] else 0
  {
    if listing != [] {
      RawFilesCount(listing[1..], f);
      assert listing == [listing[0]] + listing[1..];
    }
  }

  /** The filter keeps the listing order: filtering a listing in two parts is filtering each
      part, one after the other. */
  lemma {:induction false} RawFilesAppend(a: seq<string>, b: seq<string>)
    ensures RawFiles(a + b) == RawFiles(a) + RawFiles(b)
  {
    if a == [] {
      assert a + b == b;
    } else {
      assert (a + b)[0] == a[0] && (a + b)[1..] == a[1..] + b;
      RawFilesAppend(a[1..], b);
    }
  }

  /** filename.replace(".raw", ".csv"): every occurrence is replaced, not just the extension. */
  function CsvName(f: string): string {
    ReplaceAll(f, RawExt, CsvExt)
  }

  lemma RawExtUnbordered()
    ensures Unbordered(RawExt)
  {
    HeadOnceUnbordered(RawExt);
  }

  /** The CSV name has the length of the .raw name, and each occurrence of ".raw" becomes
      ".csv" with the text around it rewritten on its own. */
  lemma CsvNameAround(t: string, u: string)
    ensures CsvName(t + RawExt + u) == CsvName(t) + CsvExt + CsvName(u)
    ensures |CsvName(t)| == |t|
  {
    RawExtUnbordered();
    ReplaceAllAround(t, RawExt, CsvExt, u);
    ReplaceAllLength(t, RawExt, CsvExt);
  }

  /** A name without ".raw" in it is left as it is. */
  lemma {:induction false} CsvNameAbsent(s: string)
    requires !Contains(s, RawExt)
    ensures CsvName(s) == s
    decreases |s|
  {
    if s != [] {
      assert !(RawExt <= s);
      CsvNameAbsent(s[1..]);
    }
  }

  /** The CSV name of a .raw file ends in ".csv"; when ".raw" occurs only as the extension, the
      CSV name is the stem with ".csv" appended. */
  lemma CsvNameOfRaw(f: string)
    requires EndsWith(f, RawExt)
    ensures EndsWith(CsvName(f), CsvExt) && |CsvName(f)| == |f|
    ensures !Contains(f[..|f| - 4], RawExt) ==> CsvName(f) == f[..|f| - 4] + CsvExt
  {
    var stem := f[..|f| - 4];
    assert f == stem + RawExt + [];
    CsvNameAround(stem, []);
    CsvNameAround(f, []);
    assert CsvName([]) == [];
    if !Contains(stem, RawExt) {
      CsvNameAbsent(stem);
    }
  }

  /** Two different .raw files can be given the same CSV name, so the second conversion writes
      over the first. */
  lemma CsvNamesCollide()
    ensures "a.raw.raw" != "a.csv.raw" && CsvName("a.raw.raw") == CsvName("a.csv.raw") == "a.csv.csv"
  {
    assert "a.raw.raw"[2] != "a.csv.raw"[2];
    CsvNameOfRawRaw();
    CsvNameOfCsvRaw();
  }

  lemma CsvNameOfRawRaw()
    ensures CsvName("a.raw.raw") == "a.csv.csv"
  {
    var s := "a.raw.raw";
    assert s[0] != RawExt[0] && s[1..] == RawExt + ".raw";
    assert ReplaceAll(s, RawExt, CsvExt) == "a" + ReplaceAll(RawExt + ".raw", RawExt, CsvExt);
    assert (RawExt + ".raw")[4..] == RawExt && RawExt[4..] == [];
    assert ReplaceAll(RawExt, RawExt, CsvExt) == CsvExt;
  }

  lemma CsvNameOfCsvRaw()
    ensures CsvName("a.csv.raw") == "a.csv.csv"
  {
    var stem := "a.csv";
    assert stem[1..] == ".csv" && ".csv"[1..] == "csv" && "csv"[1..] == "sv" && "sv"[1..] == "v" && "v"[1..] == [];
    assert ".csv"[1] != RawExt[1];
    assert !Contains(".csv", RawExt);
    CsvNameAbsent(stem);
    assert "a.csv.raw"[..5] == stem;
    CsvNameOfRaw("a.csv.raw");
  }

  // ---------------------------------------------------------------------------------------------
  // One file

  /** The try block for one file: rawread, then arrs[0] (IndexError when there is none), whose
      field names are the CSV header. */
  function FileOutcome(name: string, r: RawResult): FileReport {
    match r
    case Raised(e) => Failed(name, e)
    case Read(arrs, _) =>
      if arrs == [] then Failed(name, IndexError)
      else Converted(name, CsvName(name), arrs[0].names, arrs[0])
  }

  /** One .raw file: open() fails (OSError), or rawread runs on its lines. */
  function ConvertOne(name: string, file: Option<seq<Bytes>>): FileReport {
    match file
    case None => Failed(name, OSError)
    case Some(lines) => FileOutcome(name, ReadRawSpec(lines))
  }

  /** A file is converted exactly when rawread returns at least one array; the CSV is then made
      of the first array, and its header is the variable names of the first plot. An exception
      of rawread is the one reported. */
  lemma ConvertedFromFirstPlot(name: string, file: seq<Bytes>)
    ensures var r := ReadRawSpec(file); var c := ConvertOne(name, Some(file));
      && (c.Converted? <==> r.Read? && r.arrs != [])
      && (c.Converted? ==> && c.raw == name && c.csv == CsvName(name) && c.data == r.arrs[0]
                           && r.plots != [] && r.plots[0].vars.Some?
                           && c.headers == r.plots[0].vars.value.names)
      && (r.Raised? ==> c == Failed(name, r.error))
      && (r.Read? && r.arrs == [] ==> c == Failed(name, IndexError))
  {
    ScanPaired(file, 0, Start);
  }

  // ---------------------------------------------------------------------------------------------
  // The directory

  /** What convert_raw_to_csv(sim_dir) does. */
  function ConvertSpec(dirExists: bool, listing: Option<seq<string>>, contents: string -> Option<seq<Bytes>>): ConvertReport {
    if !dirExists then NoDirectory
    else if listing.None? then ListingRaised
    else
      var raws := RawFiles(listing.value);
      if raws == [] then NoRawFiles
      else Processed(seq(|raws|, m requires 0 <= m < |raws| => ConvertOne(raws[m], contents(raws[m]))))
  }

  /** The run stops early exactly when the directory is missing, cannot be listed or holds no
      .raw file; otherwise
      every .raw file of the listing is reported once, in listing order, a file that cannot be
      opened is reported with OSError, and a converted file's CSV name ends in ".csv". */
  lemma ReportPerRawFile(dirExists: bool, listing: Option<seq<string>>, contents: string -> Option<seq<Bytes>>)
    ensures var rep := ConvertSpec(dirExists, listing, contents);
      && (rep == NoDirectory <==> !dirExists)
      && (rep == ListingRaised <==> dirExists && listing.None?)
      && (rep == NoRawFiles <==> dirExists && listing.Some? && forall f :: f in listing.value ==> !EndsWith(f, RawExt))
      && (rep.Processed? ==>
            && listing.Some?
            && |rep.files| == |RawFiles(listing.value)|
            && forall m :: 0 <= m < |rep.files| ==>
                 && rep.files[m].raw == RawFiles(listing.value)[m]
                 && EndsWith(rep.files[m].raw, RawExt)
                 && (contents(rep.files[m].raw).None? ==> rep.files[m].Failed? && rep.files[m].error == OSError)
                 && (rep.files[m].Converted? ==> EndsWith(rep.files[m].csv, CsvExt)))
  {
    if !dirExists || listing.None? {
      return;
    }
    var raws := RawFiles(listing.value);
    if raws == [] {
      forall f | f in listing.value ensures !EndsWith(f, RawExt) {
        assert f !in raws;
      }
    }
    if raws != [] {
      assert raws[0] in raws;
      var rep := ConvertSpec(dirExists, listing, contents);
      forall m | 0 <= m < |raws|
        ensures && rep.files[m].raw == raws[m] && EndsWith(raws[m], RawExt)
                && (contents(raws[m]).None? ==> rep.files[m].Failed? && rep.files[m].error == OSError)
                && (rep.files[m].Converted? ==> EndsWith(rep.files[m].csv, CsvExt))
      {
        assert raws[m] in raws;
        CsvNameOfRaw(raws[m]);
        ReportNamesFile(raws[m], contents(raws[m]));
      }
    }
  }

  /** The report on one file names that file, and names its CSV file when it is converted. */
  lemma ReportNamesFile(name: string, file: Option<seq<Bytes>>)
    ensures ConvertOne(name, file).raw == name
    ensures file.None? ==> ConvertOne(name, file) == Failed(name, OSError)
    ensures ConvertOne(name, file).Converted? ==> ConvertOne(name, file).csv == CsvName(name)
  {
  }

  /** convert_raw_to_csv(sim_dir): the files are converted one after the other. */
  method ConvertRawToCsv(dirExists: bool, listing: Option<seq<string>>, contents: string -> Option<seq<Bytes>>)
    returns (report: ConvertReport)
    ensures report == ConvertSpec(dirExists, listing, contents)
  {
    if !dirExists {
      return NoDirectory;
    }
    if listing.None? {
      return ListingRaised;
    }
    var raws := RawFiles(listing.value);
    if raws == [] {
      return NoRawFiles;
    }
    var done: seq<FileReport> := [];
    for j := 0 to |raws|
      invariant |done| == j
      invariant forall m :: 0 <= m < j ==> done[m] == ConvertOne(raws[m], contents(raws[m]))
    {
      match contents(raws[j]) {
        case None =>
          done := done + [Failed(raws[j], OSError)];
        case Some(lines) =>
          var r := ReadRaw(lines);
          done := done + [FileOutcome(raws[j], r)];
      }
    }
    report := Processed(done);
  }
}
