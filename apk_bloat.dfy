/** Naming, size diffing, metadata comparison, revision selection and the build loop of the APK size-bloat tool. */
module ApkBloat {
  import opened Wrappers
  import opened Strings

  const CommitCountWarnThreshold: nat := 15
  const AllowedConsecutiveFailures: nat := 2

  // ---------------------------------------------------------------- names

  predicate IsUpper(c: char) { 'A' <= c <= 'Z' }
  predicate IsLower(c: char) { 'a' <= c <= 'z' }
  predicate IsLetter(c: char) { IsUpper(c) || IsLower(c) }

  function ToUpper(c: char): char
  {
    if IsLower(c) then ((c as int) - 32) as char else c
  }

  function ToLower(c: char): char
  {
    if IsUpper(c) then ((c as int) + 32) as char else c
  }

  /** Python's `str.title()` on ASCII text. */
  function Title(s: string): (r: string)
    ensures |r| == |s|
  {
    TitleAfter(s, false)
  }

  /** `Title` of `s` when the character before it was a letter (`afterLetter`) or not. */
  function TitleAfter(s: string, afterLetter: bool): (r: string)
    ensures |r| == |s|
  {
    if s == [] then []
    else [TitleChar(s[0], afterLetter)] + TitleAfter(s[1..], IsLetter(s[0]))
  }

  function TitleChar(c: char, afterLetter: bool): char
  {
    if !IsLetter(c) then c else if afterLetter then ToLower(c) else ToUpper(c)
  }

  /** Character by character: a letter is upper-cased when it starts a word (no letter just before it) and lower-cased otherwise; any other character is kept. */
  lemma TitleChars(s: string)
    ensures forall i :: 0 <= i < |s| ==> Title(s)[i] == TitleChar(s[i], i > 0 && IsLetter(s[i - 1]))
  {
    TitleAfterChars(s, false);
    assert Title(s) == TitleAfter(s, false);
    forall i | 0 <= i < |s|
      ensures Title(s)[i] == TitleChar(s[i], i > 0 && IsLetter(s[i - 1]))
    {
      assert TitleAfter(s, false)[i] == TitleChar(s[i], (i == 0 && false) || (i > 0 && IsLetter(s[i - 1])));
    }
  }

  lemma {:induction false} TitleAfterChars(s: string, afterLetter: bool)
    ensures forall i :: 0 <= i < |s| ==>
      TitleAfter(s, afterLetter)[i] == TitleChar(s[i], (i == 0 && afterLetter) || (i > 0 && IsLetter(s[i - 1])))
  {
    if s != [] {
      TitleAfterChars(s[1..], IsLetter(s[0]));
      var t := TitleAfter(s, afterLetter);
      forall i | 0 <= i < |s|
        ensures t[i] == TitleChar(s[i], (i == 0 && afterLetter) || (i > 0 && IsLetter(s[i - 1])))
      {
        if i > 0 {
          assert t[i] == TitleAfter(s[1..], IsLetter(s[0]))[i - 1];
          assert s[1..][i - 1] == s[i];
          if i > 1 {
            assert s[1..][i - 2] == s[i - 1];
          }
        }
      }
    }
  }

  /** Title-casing twice changes nothing more. */
  lemma {:induction false} TitleIdempotent(s: string, afterLetter: bool)
    ensures TitleAfter(TitleAfter(s, afterLetter), afterLetter) == TitleAfter(s, afterLetter)
  {
    if s != [] {
      var t := TitleAfter(s, afterLetter);
      assert IsLetter(t[0]) == IsLetter(s[0]);
      assert t[1..] == TitleAfter(s[1..], IsLetter(s[0]));
      TitleIdempotent(s[1..], IsLetter(s[0]));
    }
  }

  /** `''.join(s.title() for s in parts)`. */
  function TitledJoin(parts: seq<string>): string
  {
    if parts == [] then "" else TitledJoin(parts[..|parts| - 1]) + Title(parts[|parts| - 1])
  }

  const WebviewSpelling: string := "Webview"
  const WebViewSpelling: string := "WebView"

  /** The APK file name of a `my_great_apk`-style target: every `_`-separated part but the last, title-cased and joined, then `.apk`, with `Webview` spelled `WebView`. */
  function ApkName(target: string): (r: string)
    ensures var parts := Split(target, '_');
      r == Replace(TitledJoin(parts[..|parts| - 1]), WebviewSpelling, WebViewSpelling) + ".apk"
    ensures EndsWith(r, ".apk")
  {
    var parts := Split(target, '_');
    ReplaceDisjointTail(TitledJoin(parts[..|parts| - 1]), ".apk", WebviewSpelling, WebViewSpelling);
    Replace(TitledJoin(parts[..|parts| - 1]) + ".apk", WebviewSpelling, WebViewSpelling)
  }

  /** A lower-case word, as target names are made of, gets only its first letter capitalised. */
  lemma TitleLowerWord(w: string)
    requires w != [] && forall i :: 0 <= i < |w| ==> IsLower(w[i])
    ensures Title(w) == [ToUpper(w[0])] + w[1..]
  {
    LowerAfterLetter(w[1..]);
  }

  lemma {:induction false} LowerAfterLetter(w: string)
    requires forall i :: 0 <= i < |w| ==> IsLower(w[i])
    ensures TitleAfter(w, true) == w
  {
    if w != [] {
      LowerAfterLetter(w[1..]);
      assert w == [w[0]] + w[1..];
    }
  }

  /** For a target `p1_..._pn_last` made of `_`-free parts, the name comes from `p1 ... pn` alone: the last part never shows. */
  lemma ApkNameDropsLastPart(parts: seq<string>, last: string)
    requires forall i :: 0 <= i < |parts| ==> '_' !in parts[i]
    requires '_' !in last
    ensures ApkName(Join(parts + [last], '_')) == Replace(TitledJoin(parts), WebviewSpelling, WebViewSpelling) + ".apk"
  {
    SplitDropsLast(parts, last);
  }

  /** Splitting `p1_..._pn_last` on `_` and dropping the last piece gives back `p1 ... pn`. */
  lemma SplitDropsLast(parts: seq<string>, last: string)
    requires forall i :: 0 <= i < |parts| ==> '_' !in parts[i]
    requires '_' !in last
    ensures var split := Split(Join(parts + [last], '_'), '_'); |split| == |parts| + 1 && split[..|parts|] == parts
  {
    var all := parts + [last];
    forall i | 0 <= i < |all|
      ensures '_' !in all[i]
    {
      if i < |parts| { assert all[i] == parts[i]; }
    }
    SplitJoin(all, '_');
    assert all[..|parts|] == parts;
  }

  const ChromeBinary: string := "chrome"
  const MonochromeLibrary: string := "lib.unstripped/libmonochrome.so"
  const ChromeLibrary: string := "lib.unstripped/libchrome.so"

  /** The main native binary, relative to the output directory. */
  function MainLibName(targetOs: string, target: string): (r: string)
    ensures r == ChromeBinary <==> targetOs == "linux"
    ensures targetOs != "linux" ==> (r == MonochromeLibrary <==> Contains(target, "monochrome"))
  {
    if targetOs == "linux" then ChromeBinary
    else if Contains(target, "monochrome") then MonochromeLibrary
    else ChromeLibrary
  }

  /** The linker map file sits next to the main library. */
  function MapFileName(targetOs: string, target: string): (r: string)
    ensures StartsWith(r, MainLibName(targetOs, target)) && EndsWith(r, ".map.gz")
    ensures |r| == |MainLibName(targetOs, target)| + |".map.gz"|
  {
    MainLibName(targetOs, target) + ".map.gz"
  }

  // ---------------------------------------------------------------- build settings and commands

  /** The command-line options `_BuildHelper` reads; an empty string is an option that was not given. */
  datatype BuildArgs = BuildArgs(cloud: bool, enableChromeAndroidInternal: bool, maxJobs: string, maxLoadAverage: string,
                                 outputDirectory: string, target: string, targetOs: string, useGoma: bool)

  const BrandedGnArgs: string := " is_chrome_branded=true"
  const UnbrandedGnArgs: string := " exclude_unwind_tables=true ffmpeg_branding=\"Chrome\" proprietary_codecs=true"
  const GomaJobs: string := "10000"
  const LocalJobs: string := "500"
  const OfficialGnArgs: string := "is_official_build=true symbol_level=1"

  function BoolLower(b: bool): string
  {
    if b then "true" else "false"
  }

  /** The `--args=` value of `gn gen`. */
  function GnArgs(useGoma: bool, targetOs: string, enableChromeAndroidInternal: bool, extraGnArgs: string): (r: string)
    ensures StartsWith(r, OfficialGnArgs) && EndsWith(r, extraGnArgs)
  {
    OfficialGnArgs + " use_goma=" + BoolLower(useGoma) + " target_os=\"" + targetOs + "\""
      + " enable_chrome_android_internal=" + BoolLower(enableChromeAndroidInternal) + extraGnArgs
  }

  /** Generates and builds one target; the fields hold the options after defaults are filled in. */
  class BuildHelper {
    var cloud: bool
    var enableChromeAndroidInternal: bool
    var extraGnArgs: string
    var maxJobs: string
    var maxLoadAverage: string
    var outputDirectory: string
    var target: string
    var targetOs: string
    var useGoma: bool

    /** `__init__` followed by `_SetDefaults`: whether `~/goma` exists, the CPU count and whether a `src-internal` checkout exists come from the machine. */
    constructor (args: BuildArgs, hasGomaDir: bool, cpuCount: nat, hasSrcInternal: bool)
      ensures cloud == args.cloud && enableChromeAndroidInternal == args.enableChromeAndroidInternal
      ensures outputDirectory == args.outputDirectory && target == args.target && targetOs == args.targetOs
      ensures useGoma == (args.useGoma || hasGomaDir)
      ensures maxLoadAverage == if args.maxLoadAverage != "" then args.maxLoadAverage else Decimal(cpuCount)
      ensures maxJobs == if args.maxJobs != "" then args.maxJobs else if useGoma then GomaJobs else LocalJobs
      ensures extraGnArgs == if hasSrcInternal then BrandedGnArgs else UnbrandedGnArgs
    {
      cloud := args.cloud;
      enableChromeAndroidInternal := args.enableChromeAndroidInternal;
      extraGnArgs := "";
      maxJobs := args.maxJobs;
      maxLoadAverage := args.maxLoadAverage;
      outputDirectory := args.outputDirectory;
      target := args.target;
      targetOs := args.targetOs;
      useGoma := args.useGoma;
      new;
      SetDefaults(hasGomaDir, cpuCount, hasSrcInternal);
    }

    /** Goma is used if asked for or installed; the load limit defaults to the CPU count and the job count to what goma or a local build can take. */
    method SetDefaults(hasGomaDir: bool, cpuCount: nat, hasSrcInternal: bool)
      modifies this
      ensures cloud == old(cloud) && enableChromeAndroidInternal == old(enableChromeAndroidInternal)
      ensures outputDirectory == old(outputDirectory) && target == old(target) && targetOs == old(targetOs)
      ensures useGoma == (old(useGoma) || hasGomaDir)
      ensures maxLoadAverage == if old(maxLoadAverage) != "" then old(maxLoadAverage) else Decimal(cpuCount)
      ensures maxJobs == if old(maxJobs) != "" then old(maxJobs) else if useGoma then GomaJobs else LocalJobs
      ensures extraGnArgs == if hasSrcInternal then BrandedGnArgs else UnbrandedGnArgs
    {
      useGoma := useGoma || hasGomaDir;
      if maxLoadAverage == "" {
        maxLoadAverage := Decimal(cpuCount);
      }
      if maxJobs == "" {
        maxJobs := if useGoma then GomaJobs else LocalJobs;
      }
      if hasSrcInternal {
        extraGnArgs := BrandedGnArgs;
      } else {
        extraGnArgs := UnbrandedGnArgs;
      }
    }

    /** `gn gen <out> --args=...`. */
    method GenGnCmd() returns (cmd: seq<string>)
      ensures cmd == ["gn", "gen", outputDirectory, "--args=" + GnArgs(useGoma, targetOs, enableChromeAndroidInternal, extraGnArgs)]
    {
      var gnArgs := GnArgs(useGoma, targetOs, enableChromeAndroidInternal, extraGnArgs);
      cmd := ["gn", "gen", outputDirectory, "--args=" + gnArgs];
    }

    /** `ninja -C <out> [-j N] [-l N] <target>`: each flag only when its value is set, and the target last. */
    method GenNinjaCmd() returns (cmd: seq<string>)
      ensures |cmd| == 4 + (if maxJobs != "" then 2 else 0) + (if maxLoadAverage != "" then 2 else 0)
      ensures cmd[..3] == ["ninja", "-C", outputDirectory] && cmd[|cmd| - 1] == target
      ensures maxJobs != "" ==> cmd[3..5] == ["-j", maxJobs]
      ensures maxLoadAverage != "" ==> cmd[|cmd| - 3..|cmd| - 1] == ["-l", maxLoadAverage]
    {
      cmd := ["ninja", "-C", outputDirectory];
      if maxJobs != "" {
        cmd := cmd + ["-j", maxJobs];
      }
      if maxLoadAverage != "" {
        cmd := cmd + ["-l", maxLoadAverage];
      }
      cmd := cmd + [target];
    }

  }

  /** Once defaults are filled in, the ninja command always carries both `-j` and `-l`, with 10000 jobs under goma and 500 without unless `-j` was given. */
  method DefaultNinjaCmd(args: BuildArgs, hasGomaDir: bool, cpuCount: nat, hasSrcInternal: bool) returns (cmd: seq<string>)
    ensures |cmd| == 8 && cmd[..3] == ["ninja", "-C", args.outputDirectory] && cmd[7] == args.target
    ensures cmd[3..5] == ["-j", if args.maxJobs != "" then args.maxJobs else if args.useGoma || hasGomaDir then GomaJobs else LocalJobs]
    ensures cmd[5..7] == ["-l", if args.maxLoadAverage != "" then args.maxLoadAverage else Decimal(cpuCount)]
  {
    var build := new BuildHelper(args, hasGomaDir, cpuCount, hasSrcInternal);
    cmd := build.GenNinjaCmd();
  }

  // ---------------------------------------------------------------- resource size diff

  datatype Measure = Measure(value: int, units: string)

  /** One `(section, subsection)` entry of a resource-sizes chart. */
  datatype ChartEntry = ChartEntry(section: string, subsection: string, measure: Measure)

  type Chart = map<string, map<string, Measure>>

  datatype DiffResult = DiffResult(section: string, value: int, units: string)

  /** The without-patch chart has the entry too, in the same units. */
  predicate Comparable(e: ChartEntry, withoutPatch: Chart)
  {
    e.section in withoutPatch && e.subsection in withoutPatch[e.section]
    && e.measure.units == withoutPatch[e.section][e.subsection].units
  }

  function DiffOf(e: ChartEntry, withoutPatch: Chart): DiffResult
    requires Comparable(e, withoutPatch)
  {
    DiffResult(e.section + " " + e.subsection, e.measure.value - withoutPatch[e.section][e.subsection].value, e.measure.units)
  }

  /**
   * The comparable entries of the with-patch chart, taken in its iteration
   * order, as with-minus-without differences: exactly the comparable entries
   * are reported, each once.
   */
  function Collect(withPatch: seq<ChartEntry>, withoutPatch: Chart): (r: seq<DiffResult>)
    ensures |r| <= |withPatch|
    ensures forall d :: d in r <==> exists e :: e in withPatch && Comparable(e, withoutPatch) && d == DiffOf(e, withoutPatch)
  {
    if withPatch == [] then []
    else
      var init := withPatch[..|withPatch| - 1];
      var e := withPatch[|withPatch| - 1];
      assert withPatch == init + [e];
      Collect(init, withoutPatch) + (if Comparable(e, withoutPatch) then [DiffOf(e, withoutPatch)] else [])
  }

  /** A single with-patch entry gives its difference when comparable, and nothing otherwise. */
  lemma CollectOne(e: ChartEntry, withoutPatch: Chart)
    ensures Collect([e], withoutPatch) == if Comparable(e, withoutPatch) then [DiffOf(e, withoutPatch)] else []
  {
    assert [e][..0] == [];
  }

  /** Collecting distributes over concatenation: every entry contributes its own difference, in order, duplicates included. */
  lemma {:induction false} CollectAppend(a: seq<ChartEntry>, b: seq<ChartEntry>, withoutPatch: Chart)
    ensures Collect(a + b, withoutPatch) == Collect(a, withoutPatch) + Collect(b, withoutPatch)
    decreases |b|
  {
    if b == [] {
      assert a + b == a;
    } else {
      var init, e := b[..|b| - 1], b[|b| - 1];
      var ab := a + b;
      assert ab[..|ab| - 1] == a + init && ab[|ab| - 1] == e;
      CollectAppend(a, init, withoutPatch);
      var tail := if Comparable(e, withoutPatch) then [DiffOf(e, withoutPatch)] else [];
      assert Collect(ab, withoutPatch) == (Collect(a, withoutPatch) + Collect(init, withoutPatch)) + tail;
      assert Collect(b, withoutPatch) == Collect(init, withoutPatch) + tail;
    }
  }

  function Abs(v: int): nat
  {
    if v < 0 then -v else v
  }

  /** Largest change first. */
  predicate Descending(ds: seq<DiffResult>)
  {
    forall i, j :: 0 <= i < j < |ds| ==> Abs(ds[i].value) >= Abs(ds[j].value)
  }

  /** `d` placed before the first entry whose change is not larger than its own. */
  function Insert(d: DiffResult, ds: seq<DiffResult>): seq<DiffResult>
  {
    if ds == [] || Abs(d.value) >= Abs(ds[0].value) then [d] + ds else [ds[0]] + Insert(d, ds[1..])
  }

  /** `sorted(diff, key=lambda x: abs(x.value), reverse=True)`: ordered by decreasing size of change, holding the same entries. */
  function SortByMagnitude(ds: seq<DiffResult>): (r: seq<DiffResult>)
    ensures Descending(r)
    ensures multiset(r) == multiset(ds)
  {
    if ds == [] then []
    else
      var rest := SortByMagnitude(ds[1..]);
      InsertSorted(ds[0], rest);
      InsertPermutes(ds[0], rest);
      assert ds == [ds[0]] + ds[1..];
      Insert(ds[0], rest)
  }

  lemma {:induction false} InsertPermutes(d: DiffResult, ds: seq<DiffResult>)
    ensures multiset(Insert(d, ds)) == multiset(ds) + multiset{d}
  {
    if ds != [] && Abs(d.value) < Abs(ds[0].value) {
      InsertPermutes(d, ds[1..]);
      assert ds == [ds[0]] + ds[1..];
    }
  }

  /** Inserting keeps every entry within a bound that `d` and `ds` respect. */
  lemma {:induction false} InsertBounded(d: DiffResult, ds: seq<DiffResult>, bound: nat)
    requires Abs(d.value) <= bound && forall i :: 0 <= i < |ds| ==> Abs(ds[i].value) <= bound
    ensures forall i :: 0 <= i < |Insert(d, ds)| ==> Abs(Insert(d, ds)[i].value) <= bound
  {
    if ds != [] && Abs(d.value) < Abs(ds[0].value) {
      InsertBounded(d, ds[1..], bound);
      assert forall i :: 1 <= i < |Insert(d, ds)| ==> Insert(d, ds)[i] == Insert(d, ds[1..])[i - 1];
    }
  }

  lemma {:induction false} InsertSorted(d: DiffResult, ds: seq<DiffResult>)
    requires Descending(ds)
    ensures Descending(Insert(d, ds))
  {
    if ds != [] && Abs(d.value) < Abs(ds[0].value) {
      var rest := Insert(d, ds[1..]);
      InsertSorted(d, ds[1..]);
      InsertBounded(d, ds[1..], Abs(ds[0].value));
      assert Insert(d, ds) == [ds[0]] + rest;
    }
  }

  /** The entries whose change has size `m`, in order. */
  function WithMagnitude(ds: seq<DiffResult>, m: nat): seq<DiffResult>
  {
    if ds == [] then [] else (if Abs(ds[0].value) == m then [ds[0]] else []) + WithMagnitude(ds[1..], m)
  }

  lemma {:induction false} InsertStable(d: DiffResult, ds: seq<DiffResult>, m: nat)
    ensures WithMagnitude(Insert(d, ds), m) == (if Abs(d.value) == m then [d] else []) + WithMagnitude(ds, m)
  {
    if ds != [] && Abs(d.value) < Abs(ds[0].value) {
      InsertStable(d, ds[1..], m);
      assert Insert(d, ds)[1..] == Insert(d, ds[1..]);
    } else {
      assert ([d] + ds)[1..] == ds;
    }
  }

  /** The sort is stable: entries with equal size of change keep their order. */
  lemma {:induction false} SortByMagnitudeStable(ds: seq<DiffResult>, m: nat)
    ensures WithMagnitude(SortByMagnitude(ds), m) == WithMagnitude(ds, m)
  {
    if ds != [] {
      SortByMagnitudeStable(ds[1..], m);
      InsertStable(ds[0], SortByMagnitude(ds[1..]), m);
    }
  }

  const NormalizedKey: string := "normalized"
  const NormalizedPrefix: string := "Normalized APK size: "

  /** The digits of `m < 1000` padded to three. */
  function ThreeDigits(m: nat): string
    requires m < 1000
  {
    [DigitChar(m / 100), DigitChar(m / 10 % 10), DigitChar(m % 10)]
  }

  /** `n` in decimal with a `,` between groups of three digits, as format spec `,` prints it. */
  function Grouped(n: nat): string
  {
    if n < 1000 then Decimal(n) else Grouped(n / 1000) + "," + ThreeDigits(n % 1000)
  }

  function WithoutCommas(s: string): string
  {
    if s == [] then [] else WithoutCommas(s[..|s| - 1]) + (if s[|s| - 1] == ',' then [] else [s[|s| - 1]])
  }

  lemma {:induction false} WithoutCommasAppend(a: string, b: string)
    ensures WithoutCommas(a + b) == WithoutCommas(a) + WithoutCommas(b)
    decreases |b|
  {
    if b == [] {
      assert a + b == a;
    } else {
      WithoutCommasAppend(a, b[..|b| - 1]);
      assert (a + b)[..|a + b| - 1] == a + b[..|b| - 1];
      assert (a + b)[|a + b| - 1] == b[|b| - 1];
    }
  }

  lemma {:induction false} WithoutCommasDigits(s: string)
    requires AllDigits(s)
    ensures WithoutCommas(s) == s
  {
    if s != [] {
      WithoutCommasDigits(s[..|s| - 1]);
    }
  }

  /** The last three digits of a number of four or more digits. */
  lemma DecimalThousands(n: nat)
    requires n >= 1000
    ensures Decimal(n) == Decimal(n / 1000) + ThreeDigits(n % 1000)
  {
    ThousandsArithmetic(n);
    assert Decimal(n) == Decimal(n / 10) + [DigitChar(n % 10)];
    assert Decimal(n / 10) == Decimal(n / 100) + [DigitChar(n / 10 % 10)];
    assert Decimal(n / 100) == Decimal(n / 1000) + [DigitChar(n / 100 % 10)];
  }

  lemma ThousandsArithmetic(n: nat)
    ensures n / 10 / 10 == n / 100 && n / 100 / 10 == n / 1000
    ensures n / 100 % 10 == n % 1000 / 100 && n / 10 % 10 == n % 1000 / 10 % 10 && n % 10 == n % 1000 % 10
  {
    var q := n / 1000;
    var m := n % 1000;
    assert n == 1000 * q + m;
    assert n / 10 == 100 * q + m / 10;
    assert n / 100 == 10 * q + m / 100;
  }

  /** Dropping the group separators gives the plain decimal digits back. */
  lemma {:induction false} GroupedDigits(n: nat)
    ensures WithoutCommas(Grouped(n)) == Decimal(n)
  {
    if n < 1000 {
      WithoutCommasDigits(Decimal(n));
    } else {
      GroupedDigits(n / 1000);
      WithoutCommasAppend(Grouped(n / 1000) + ",", ThreeDigits(n % 1000));
      WithoutCommasAppend(Grouped(n / 1000), ",");
      WithoutCommasDigits(ThreeDigits(n % 1000));
      DecimalThousands(n);
    }
  }

  /** Format spec `+,`: always a sign, then the grouped digits of the size. */
  function Signed(v: int): string
  {
    (if v >= 0 then "+" else "-") + Grouped(Abs(v))
  }

  function NormalizedLine(d: DiffResult): (r: string)
    ensures |r| > |NormalizedPrefix|
  {
    NormalizedPrefix + Signed(d.value) + " " + d.units
  }

  /**
   * The summary line of the first entry whose section mentions `normalized`, or
   * nothing: empty exactly when no entry is normalized.
   */
  function SummaryOf(ds: seq<DiffResult>): (r: string)
    ensures r == "" <==> forall i :: 0 <= i < |ds| ==> !Normalized(ds[i])
    ensures forall k :: 0 <= k < |ds| && Normalized(ds[k]) && (forall j :: 0 <= j < k ==> !Normalized(ds[j])) ==>
      r == NormalizedLine(ds[k])
  {
    if ds == [] then ""
    else if Normalized(ds[0]) then NormalizedLine(ds[0])
    else
      assert forall i :: 0 < i < |ds| ==> ds[i] == ds[1..][i - 1];
      SummaryOf(ds[1..])
  }

  predicate Normalized(d: DiffResult)
  {
    Contains(d.section, NormalizedKey)
  }

  /** The resource-sizes diff between the with-patch and without-patch builds; `diff` is `None` until `ProduceDiff` runs. */
  class ResourceSizesDiff {
    const apkName: string
    const slowOptions: bool
    var diff: Option<seq<DiffResult>>

    constructor (apkName: string, slowOptions: bool)
      ensures this.apkName == apkName && this.slowOptions == slowOptions && diff == None
    {
      this.apkName := apkName;
      this.slowOptions := slowOptions;
      diff := None;
    }

    /** Keeps the entries both charts have in the same units, as differences, largest change first. */
    method ProduceDiff(withPatch: seq<ChartEntry>, withoutPatch: Chart)
      modifies this
      ensures diff == Some(SortByMagnitude(Collect(withPatch, withoutPatch)))
    {
      var collected: seq<DiffResult> := [];
      for i := 0 to |withPatch|
        invariant collected == Collect(withPatch[..i], withoutPatch)
      {
        var e := withPatch[i];
        assert withPatch[..i + 1][..i] == withPatch[..i];
        if Comparable(e, withoutPatch) {
          collected := collected + [DiffOf(e, withoutPatch)];
        }
      }
      assert withPatch[..|withPatch|] == withPatch;
      diff := Some(SortByMagnitude(collected));
    }

    /**
     * The first normalized entry, as a summary line, or the empty string;
     * before `ProduceDiff` there is no diff to iterate over, a `TypeError`.
     */
    method Summary() returns (s: Result<string, PyError>)
      ensures diff.None? ==> s == Failure(TypeError)
      ensures diff.Some? ==> s == Success(SummaryOf(diff.value))
    {
      if diff.None? {
        return Failure(TypeError);
      }
      var ds := diff.value;
      for i := 0 to |ds|
        invariant SummaryOf(ds[i..]) == SummaryOf(ds)
      {
        assert ds[i..][1..] == ds[i + 1..];
        if Contains(ds[i].section, NormalizedKey) {
          return Success(NormalizedLine(ds[i]));
        }
      }
      return Success("");
    }
  }

  // ---------------------------------------------------------------- metadata

  /** The JSON values a metadata file holds. */
  datatype Json = JBool(b: bool) | JStr(s: string) | JList(items: seq<Json>) | JObject(fields: map<string, Json>)

  /** Python's truth value of a JSON value. */
  function Truthy(j: Json): bool
  {
    match j
    case JBool(b) => b
    case JStr(s) => s != []
    case JList(items) => items != []
    case JObject(fields) => fields != map[]
  }

  /** A build archive: a revision and the directory its results are saved in. */
  datatype Archive = Archive(rev: string, dir: string)

  /** The build options `_GenerateMetadata` records. */
  datatype BuildSettings = BuildSettings(target: string, targetOs: string, cloud: bool, extraGnArgs: string,
                                         enableChromeAndroidInternal: bool)

  function Strs(xs: seq<string>): (r: seq<Json>)
    ensures |r| == |xs| && forall i :: 0 <= i < |xs| ==> r[i] == JStr(xs[i])
  {
    if xs == [] then [] else [JStr(xs[0])] + Strs(xs[1..])
  }

  function Revs(archives: seq<Archive>): (r: seq<string>)
    ensures |r| == |archives| && forall i :: 0 <= i < |archives| ==> r[i] == archives[i].rev
  {
    if archives == [] then [] else [archives[0].rev] + Revs(archives[1..])
  }

  function Dirs(archives: seq<Archive>): (r: seq<string>)
    ensures |r| == |archives| && forall i :: 0 <= i < |archives| ==> r[i] == archives[i].dir
  {
    if archives == [] then [] else [archives[0].dir] + Dirs(archives[1..])
  }

  const GnArgsKey: string := "gn_args"
  const IsCloudKey: string := "is_cloud"
  const PathKey: string := "path"

  function GnArgsRecord(build: BuildSettings): Json
  {
    JObject(map["extra_gn_args_str" := JStr(build.extraGnArgs),
                "enable_chrome_android_internal" := JBool(build.enableChromeAndroidInternal)])
  }

  /** The metadata describing a build of `archives` (one archive) or a diff between them (two). */
  function GenerateMetadata(archives: seq<Archive>, build: BuildSettings, path: string, subrepo: string): (r: map<string, Json>)
    ensures r.Keys == MetadataKeys
  {
    map["revs" := JList(Strs(Revs(archives))),
        "archive_dirs" := JList(Strs(Dirs(archives))),
        "target" := JStr(build.target),
        "target_os" := JStr(build.targetOs),
        IsCloudKey := JBool(build.cloud),
        "subrepo" := JStr(subrepo),
        PathKey := JStr(path),
        GnArgsKey := GnArgsRecord(build)]
  }

  /** Every lookup the comparison makes succeeds: `is_cloud` is in the new metadata, every other key of it is stored, and `gn_args` is in both when the build is local. */
  predicate Comparison(metadata: map<string, Json>, stored: map<string, Json>)
  {
    IsCloudKey in metadata
    && (forall k :: k in metadata && k != GnArgsKey ==> k in stored)
    && (!Truthy(metadata[IsCloudKey]) ==> GnArgsKey in metadata && GnArgsKey in stored)
  }

  /** The stored metadata matches: as many keys, the same value under every key but `gn_args`, and the same `gn_args` unless artifacts are downloaded. */
  predicate Matches(metadata: map<string, Json>, stored: map<string, Json>)
    requires Comparison(metadata, stored)
  {
    |metadata| == |stored|
    && (forall k :: k in metadata && k != GnArgsKey ==> metadata[k] == stored[k])
    && (!Truthy(metadata[IsCloudKey]) ==> metadata[GnArgsKey] == stored[GnArgsKey])
  }

  /** `_MetadataExists`: `stored` is the file at the metadata's path, if there is one; keys are compared in the dictionary's own order, which the model leaves open. */
  method MetadataExists(metadata: map<string, Json>, stored: Option<map<string, Json>>) returns (r: Result<bool, PyError>)
    ensures PathKey !in metadata ==> r == Failure(KeyError(PathKey))
    ensures PathKey in metadata && stored.None? ==> r == Success(false)
    ensures PathKey in metadata && stored.Some? && Comparison(metadata, stored.value) ==> r == Success(Matches(metadata, stored.value))
    ensures stored.Some? && r.Success? && r.value ==> Comparison(metadata, stored.value)
    ensures r.Failure? ==> PathKey !in metadata || (stored.Some? && !Comparison(metadata, stored.value))
  {
    if PathKey !in metadata {
      return Failure(KeyError(PathKey));
    }
    if stored.None? {
      return Success(false);
    }
    var previous := stored.value;
    var ret := |metadata| == |previous|;
    var allSame := true;
    var pending := metadata.Keys;
    while pending != {} && allSame
      invariant pending <= metadata.Keys
      invariant forall k :: k in metadata && k !in pending && k != GnArgsKey ==> k in previous
      invariant allSame <==> forall k :: k in metadata && k !in pending && k != GnArgsKey ==> metadata[k] == previous[k]
      decreases |pending|
    {
      var k :| k in pending;
      if k != GnArgsKey {
        if k !in previous {
          return Failure(KeyError(k));
        }
        allSame := metadata[k] == previous[k];
      }
      pending := pending - {k};
    }
    ret := ret && allSame;
    if IsCloudKey !in metadata {
      return Failure(KeyError(IsCloudKey));
    }
    if !Truthy(metadata[IsCloudKey]) {
      if GnArgsKey !in metadata || GnArgsKey !in previous {
        return Failure(KeyError(GnArgsKey));
      }
      ret := ret && metadata[GnArgsKey] == previous[GnArgsKey];
    }
    return Success(ret);
  }

  lemma {:induction false} StrsInjective(xs: seq<string>, ys: seq<string>)
    ensures Strs(xs) == Strs(ys) <==> xs == ys
  {
    if Strs(xs) == Strs(ys) {
      assert forall i :: 0 <= i < |xs| ==> JStr(xs[i]) == Strs(xs)[i] == Strs(ys)[i] == JStr(ys[i]);
    }
  }

  const MetadataKeys: set<string> := {"revs", "archive_dirs", "target", "target_os", IsCloudKey, "subrepo", PathKey, GnArgsKey}

  /** Generated metadata always has the same eight keys, holding the archives, the build settings, the subrepo and the path. */
  lemma GeneratedFields(archives: seq<Archive>, build: BuildSettings, path: string, subrepo: string)
    ensures var m := GenerateMetadata(archives, build, path, subrepo);
      m.Keys == MetadataKeys
      && m["revs"] == JList(Strs(Revs(archives))) && m["archive_dirs"] == JList(Strs(Dirs(archives)))
      && m["target"] == JStr(build.target) && m["target_os"] == JStr(build.targetOs)
      && m[IsCloudKey] == JBool(build.cloud) && m["subrepo"] == JStr(subrepo) && m[PathKey] == JStr(path)
      && m[GnArgsKey] == GnArgsRecord(build)
  {
  }

  /** Between generated metadata, matching is equality of the seven recorded fields, and of the GN arguments for a local build. */
  lemma GeneratedMatches(m: map<string, Json>, m': map<string, Json>)
    requires m.Keys == MetadataKeys && m'.Keys == MetadataKeys
    requires Comparison(m, m')
    ensures Matches(m, m') <==>
      m["revs"] == m'["revs"] && m["archive_dirs"] == m'["archive_dirs"] && m["target"] == m'["target"]
      && m["target_os"] == m'["target_os"] && m[IsCloudKey] == m'[IsCloudKey] && m["subrepo"] == m'["subrepo"]
      && m[PathKey] == m'[PathKey] && (!Truthy(m[IsCloudKey]) ==> m[GnArgsKey] == m'[GnArgsKey])
  {
    assert |m| == |m.Keys| == |m'.Keys| == |m'|;
    if m["revs"] == m'["revs"] && m["archive_dirs"] == m'["archive_dirs"] && m["target"] == m'["target"]
      && m["target_os"] == m'["target_os"] && m[IsCloudKey] == m'[IsCloudKey] && m["subrepo"] == m'["subrepo"]
      && m[PathKey] == m'[PathKey]
    {
      forall k | k in m && k != GnArgsKey
        ensures m[k] == m'[k]
      {
        assert k in MetadataKeys;
      }
    }
  }

  /** Metadata written for a build is found again for that build, and for another one exactly when revisions, directories, target, OS, mode, subrepo and path agree, and, for a local build, the GN arguments too. */
  lemma MetadataVerdict(archives: seq<Archive>, build: BuildSettings, path: string, subrepo: string,
                        archives': seq<Archive>, build': BuildSettings, path': string, subrepo': string)
    ensures var m := GenerateMetadata(archives, build, path, subrepo);
      var m' := GenerateMetadata(archives', build', path', subrepo');
      Comparison(m, m')
      && (Matches(m, m') <==>
            Revs(archives) == Revs(archives') && Dirs(archives) == Dirs(archives')
            && build.target == build'.target && build.targetOs == build'.targetOs && build.cloud == build'.cloud
            && subrepo == subrepo' && path == path'
            && (build.cloud || (build.extraGnArgs == build'.extraGnArgs
                                && build.enableChromeAndroidInternal == build'.enableChromeAndroidInternal)))
  {
    var m := GenerateMetadata(archives, build, path, subrepo);
    var m' := GenerateMetadata(archives', build', path', subrepo');
    GeneratedFields(archives, build, path, subrepo);
    GeneratedFields(archives', build', path', subrepo');
    GeneratedMatches(m, m');
    StrsInjective(Revs(archives), Revs(archives'));
    StrsInjective(Dirs(archives), Dirs(archives'));
    GnArgsRecordInjective(build, build');
  }

  lemma GnArgsRecordInjective(build: BuildSettings, build': BuildSettings)
    ensures GnArgsRecord(build) == GnArgsRecord(build') <==>
      build.extraGnArgs == build'.extraGnArgs && build.enableChromeAndroidInternal == build'.enableChromeAndroidInternal
  {
    if GnArgsRecord(build) == GnArgsRecord(build') {
      assert GnArgsRecord(build).fields["extra_gn_args_str"] == GnArgsRecord(build').fields["extra_gn_args_str"];
      assert GnArgsRecord(build).fields["enable_chrome_android_internal"] == GnArgsRecord(build').fields["enable_chrome_android_internal"];
    }
  }

  // ---------------------------------------------------------------- revisions and the build loop

  /** `_GenerateRevList`: `ancestorCheck` is the exit code of `git merge-base --is-ancestor`, `revList` the lines `git rev-list` prints (newest first), and `confirmed` whether the user answers `y` when asked about a long range. */
  function GenerateRevList(withPatch: string, withoutPatch: string, ancestorCheck: int, revList: seq<string>,
                           allInRange: bool, confirmed: bool): (r: Result<seq<string>, PyError>)
    ensures r.Success? <==> ancestorCheck == 0 && withPatch != withoutPatch
                            && (if allInRange then |revList| < CommitCountWarnThreshold || confirmed else revList != [])
    ensures r.Success? && allInRange ==> r.value == revList
    ensures r.Success? && !allInRange ==> r.value == [revList[0], revList[|revList| - 1]]
  {
    if ancestorCheck != 0 || withPatch == withoutPatch then Failure(AssertionFailed)
    else if !allInRange && revList == [] then Failure(IndexError)
    else
      var revs := if allInRange then revList else [revList[0], revList[|revList| - 1]];
      if |revs| >= CommitCountWarnThreshold && !confirmed then Failure(Exit(1)) else Success(revs)
  }

  /** What happens to one archive in the build loop: its metadata already matches, its artifacts are downloaded (with `--cloud`), or it is built locally, successfully or not. */
  datatype Step = Found | Downloaded | Built(success: bool)

  /** `consecutive_failures` after the steps: never more than the failed builds among them. */
  function FailureRun(steps: seq<Step>): (r: nat)
    ensures r <= FailedBuilds(steps)
  {
    if steps == [] then 0
    else
      var prev := FailureRun(steps[..|steps| - 1]);
      match steps[|steps| - 1]
      case Built(ok) => if ok then 0 else prev + 1
      case _ => prev
  }

  /** The run stops at archive `i`: the failures in a row now exceed those allowed. */
  predicate DiesAt(steps: seq<Step>, i: nat)
    requires i < |steps|
  {
    FailureRun(steps[..i + 1]) > AllowedConsecutiveFailures
  }

  /** The number of failed builds among the steps. */
  function FailedBuilds(steps: seq<Step>): nat
  {
    if steps == [] then 0 else FailedBuilds(steps[..|steps| - 1]) + (if steps[|steps| - 1] == Built(false) then 1 else 0)
  }

  /** The counter is the number of failed builds since the last successful one (or since the start). */
  lemma {:induction false} FailureRunSinceSuccess(steps: seq<Step>, k: nat)
    requires k <= |steps| && (k == 0 || steps[k - 1] == Built(true))
    requires forall j :: k <= j < |steps| ==> steps[j] != Built(true)
    ensures FailureRun(steps) == FailedBuilds(steps[k..])
    decreases |steps|
  {
    if |steps| == k {
      if k > 0 {
        assert FailureRun(steps) == 0;
      }
    } else {
      var init := steps[..|steps| - 1];
      FailureRunSinceSuccess(init, k);
      assert steps[k..][..|steps[k..]| - 1] == init[k..];
    }
  }

  /** Three failed builds in a row end the run at the third. */
  lemma ThreeFailuresInARow(steps: seq<Step>, i: nat)
    requires i + 3 <= |steps|
    requires steps[i] == Built(false) && steps[i + 1] == Built(false) && steps[i + 2] == Built(false)
    ensures DiesAt(steps, i + 2)
  {
    assert steps[..i + 1][..i] == steps[..i];
    assert steps[..i + 2][..i + 1] == steps[..i + 1];
    assert steps[..i + 3][..i + 2] == steps[..i + 2];
    assert FailureRun(steps[..i + 1]) >= 1;
    assert FailureRun(steps[..i + 2]) >= 2;
  }

  /** The run can only stop at a failed build, when exactly three builds have failed in a row. */
  lemma FirstDeathIsThirdFailure(steps: seq<Step>, i: nat)
    requires i < |steps| && DiesAt(steps, i)
    requires forall j :: 0 <= j < i ==> !DiesAt(steps, j)
    ensures steps[i] == Built(false) && FailureRun(steps[..i + 1]) == AllowedConsecutiveFailures + 1
  {
    var p := steps[..i + 1];
    assert p[..i] == steps[..i];
    if i > 0 {
      var q := steps[..i];
      assert !DiesAt(steps, i - 1);
      assert steps[..i - 1 + 1] == q;
    }
  }

  /** The archive pairs `(i - 1, i)` diffed for the first `n` archives. */
  function DiffPairs(n: nat): (r: seq<(nat, nat)>)
    ensures |r| == if n == 0 then 0 else n - 1
    ensures forall k :: 0 <= k < |r| ==> r[k] == (k, k + 1)
  {
    if n <= 1 then [] else DiffPairs(n - 1) + [(n - 2, n - 1)]
  }

  /** `main`'s loop over the archives: each not found is downloaded or built; a failed build counts towards the consecutive failures and the run dies past the allowed number; every archive after the first is then diffed against the one before. */
  method BuildLoop(steps: seq<Step>) returns (diffs: seq<(nat, nat)>, died: Option<nat>)
    ensures died.Some? ==> died.value < |steps| && DiesAt(steps, died.value)
    ensures forall j :: 0 <= j < |steps| && (died.None? || j < died.value) ==> !DiesAt(steps, j)
    ensures diffs == DiffPairs(if died.Some? then died.value else |steps|)
  {
    var failures := 0;
    diffs := [];
    for i := 0 to |steps|
      invariant failures == FailureRun(steps[..i]) && failures <= AllowedConsecutiveFailures
      invariant forall j :: 0 <= j < i ==> !DiesAt(steps, j)
      invariant diffs == DiffPairs(i)
    {
      assert steps[..i + 1][..i] == steps[..i];
      if steps[i].Built? {
        if !steps[i].success {
          failures := failures + 1;
          if failures > AllowedConsecutiveFailures {
            return diffs, Some(i);
          }
        } else {
          failures := 0;
        }
      }
      assert failures == FailureRun(steps[..i + 1]);
      if i != 0 {
        diffs := diffs + [(i - 1, i)];
      }
    }
    return diffs, None;
  }

  // ---------------------------------------------------------------- tool prefix

  /** The position of the first `c` in `s`. */
  function IndexOf(s: string, c: char): (i: nat)
    requires c in s
    ensures i < |s| && s[i] == c && c !in s[..i]
  {
    if s[0] == c then 0 else 1 + IndexOf(s[1..], c)
  }

  /** `dict(l.rstrip().split('=', 1) for l in f if '=' in l)`: each line with a `=` maps the text before its first `=` to the rest of the stripped line; a later line wins. */
  function BuildVars(lines: seq<string>): (r: map<string, string>)
    ensures |r| <= |lines|
    ensures forall k :: k in r ==> '=' !in k
  {
    if lines == [] then map[]
    else
      var vars := BuildVars(lines[..|lines| - 1]);
      var l := lines[|lines| - 1];
      if '=' in l then
        assert vars[VarKey(l) := VarValue(l)].Keys == vars.Keys + {VarKey(l)};
        vars[VarKey(l) := VarValue(l)]
      else vars
  }

  /** The key a `build_vars.txt` line with a `=` sets: the text before its first `=`, which rstrip leaves alone. */
  function VarKey(l: string): (k: string)
    requires '=' in l
    ensures '=' !in k && |k| < |RStrip(l)| && k == RStrip(l)[..|k|] && RStrip(l)[|k|] == '='
  {
    var t, k := RStrip(l), IndexOf(l, '=');
    assert k < |t| && t[..k] == l[..k];
    l[..k]
  }

  /** The value it gives: the right-stripped line after its first `=`. */
  function VarValue(l: string): string
    requires '=' in l
  {
    RStrip(l)[|VarKey(l)| + 1..]
  }

  /** What one more line does to the variables. */
  lemma BuildVarsStep(lines: seq<string>, key: string)
    requires lines != []
    ensures var l, vars, before := lines[|lines| - 1], BuildVars(lines), BuildVars(lines[..|lines| - 1]);
      if '=' in l && VarKey(l) == key then key in vars && vars[key] == VarValue(l)
      else (key in vars <==> key in before) && (key in vars ==> vars[key] == before[key])
  {
  }

  /** A variable is set exactly when some line with a `=` has it as its key. */
  lemma {:induction false} BuildVarsKeys(lines: seq<string>, key: string)
    ensures key in BuildVars(lines) <==> exists i :: 0 <= i < |lines| && '=' in lines[i] && VarKey(lines[i]) == key
    decreases |lines|
  {
    if lines != [] {
      var init := lines[..|lines| - 1];
      BuildVarsKeys(init, key);
      BuildVarsStep(lines, key);
      assert forall i :: 0 <= i < |init| ==> lines[i] == init[i];
    }
  }

  /** A variable holds the value of the last line that sets it. */
  lemma {:induction false} BuildVarsLastWins(lines: seq<string>, i: nat)
    requires i < |lines| && '=' in lines[i]
    requires forall j :: i < j < |lines| && '=' in lines[j] ==> VarKey(lines[j]) != VarKey(lines[i])
    ensures VarKey(lines[i]) in BuildVars(lines) && BuildVars(lines)[VarKey(lines[i])] == VarValue(lines[i])
    decreases |lines|
  {
    var key := VarKey(lines[i]);
    BuildVarsStep(lines, key);
    if i < |lines| - 1 {
      var init := lines[..|lines| - 1];
      assert forall j :: i <= j < |init| ==> init[j] == lines[j];
      BuildVarsLastWins(init, i);
    }
  }

  const ToolPrefixKey: string := "android_tool_prefix"
  const ReadElf: string := "readelf"

  /** The prefixes tried in turn: the prefix itself while it holds a `/`, then what follows its first `/`, and so on. */
  function Candidates(prefix: string): seq<string>
    decreases |prefix|
  {
    if '/' in prefix then [prefix] + Candidates(prefix[IndexOf(prefix, '/') + 1..]) else []
  }

  /** Every candidate is a suffix of the prefix that still holds a `/`. */
  lemma {:induction false} CandidateIsSuffix(prefix: string, i: nat)
    requires i < |Candidates(prefix)|
    ensures EndsWith(prefix, Candidates(prefix)[i]) && '/' in Candidates(prefix)[i]
    decreases |prefix|
  {
    var rest := prefix[IndexOf(prefix, '/') + 1..];
    if i > 0 {
      CandidateIsSuffix(rest, i - 1);
      var c := Candidates(rest)[i - 1];
      assert Candidates(prefix)[i] == c;
      assert prefix[|prefix| - |c|..] == rest[|rest| - |c|..];
    }
  }

  /** The first candidate, rebased onto the source root, whose `readelf` is `present`; the empty string when none is. */
  function FirstRebased(srcRoot: string, candidates: seq<string>, present: set<string>): string
  {
    if candidates == [] then ""
    else
      var rebased := PathJoin(srcRoot, candidates[0]);
      if rebased + ReadElf in present then rebased else FirstRebased(srcRoot, candidates[1..], present)
  }

  /** The search answers the first candidate whose rebased `readelf` exists, and nothing exactly when none does. */
  lemma {:induction false} FirstRebasedChoice(srcRoot: string, candidates: seq<string>, present: set<string>)
    requires forall i :: 0 <= i < |candidates| ==> candidates[i] != []
    ensures var r := FirstRebased(srcRoot, candidates, present);
      (r == "" <==> forall i :: 0 <= i < |candidates| ==> PathJoin(srcRoot, candidates[i]) + ReadElf !in present)
      && (r != "" ==> exists i :: 0 <= i < |candidates| && r == PathJoin(srcRoot, candidates[i]) && r + ReadElf in present
                        && forall j :: 0 <= j < i ==> PathJoin(srcRoot, candidates[j]) + ReadElf !in present)
  {
    if candidates != [] {
      FirstRebasedChoice(srcRoot, candidates[1..], present);
      var r := FirstRebased(srcRoot, candidates, present);
      var rebased := PathJoin(srcRoot, candidates[0]);
      assert rebased != [];
      if rebased + ReadElf !in present {
        assert forall i :: 1 <= i < |candidates| ==> candidates[1..][i - 1] == candidates[i];
        if r != "" {
          var i :| 0 <= i < |candidates[1..]| && r == PathJoin(srcRoot, candidates[1..][i]) && r + ReadElf in present
                   && forall j :: 0 <= j < i ==> PathJoin(srcRoot, candidates[1..][j]) + ReadElf !in present;
          assert r == PathJoin(srcRoot, candidates[i + 1]);
        }
      }
    }
  }

  /** The search over the candidates of a prefix answers the first one whose rebased `readelf` exists, and nothing exactly when none does. */
  lemma ToolPrefixChoice(srcRoot: string, prefix: string, present: set<string>)
    ensures var candidates := Candidates(prefix);
      var r := FirstRebased(srcRoot, candidates, present);
      (r == "" <==> forall i :: 0 <= i < |candidates| ==> PathJoin(srcRoot, candidates[i]) + ReadElf !in present)
      && (r != "" ==> exists i :: 0 <= i < |candidates| && r == PathJoin(srcRoot, candidates[i]) && r + ReadElf in present
                        && forall j :: 0 <= j < i ==> PathJoin(srcRoot, candidates[j]) + ReadElf !in present)
  {
    var candidates := Candidates(prefix);
    forall i | 0 <= i < |candidates|
      ensures candidates[i] != []
    {
      CandidateIsSuffix(prefix, i);
    }
    FirstRebasedChoice(srcRoot, candidates, present);
  }

  /** `_FindToolPrefix`: `buildVarsFile` holds the lines of `build_vars.txt` when it exists, `present` the files that exist. */
  method FindToolPrefix(srcRoot: string, buildVarsFile: Option<seq<string>>, present: set<string>) returns (r: Result<string, PyError>)
    ensures buildVarsFile.None? ==> r == Success("")
    ensures buildVarsFile.Some? && ToolPrefixKey !in BuildVars(buildVarsFile.value) ==> r == Failure(KeyError(ToolPrefixKey))
    ensures buildVarsFile.Some? && ToolPrefixKey in BuildVars(buildVarsFile.value) ==>
      r == Success(FirstRebased(srcRoot, Candidates(BuildVars(buildVarsFile.value)[ToolPrefixKey]), present))
  {
    if buildVarsFile.None? {
      return Success("");
    }
    var vars := BuildVars(buildVarsFile.value);
    if ToolPrefixKey !in vars {
      return Failure(KeyError(ToolPrefixKey));
    }
    var prefix := vars[ToolPrefixKey];
    while '/' in prefix
      invariant FirstRebased(srcRoot, Candidates(prefix), present) == FirstRebased(srcRoot, Candidates(vars[ToolPrefixKey]), present)
      decreases |prefix|
    {
      var rebased := PathJoin(srcRoot, prefix);
      if rebased + ReadElf in present {
        return Success(rebased);
      }
      prefix := prefix[IndexOf(prefix, '/') + 1..];
    }
    return Success("");
  }
}
