/**
 * The string, list and directory-tree logic used when a finished harvest is documented:
 * the query part of the CDX URIs, the walk over the domain-specific settings directory that
 * yields reversed domain names such as ".dk.netarkivet", turning such a name back into
 * "netarkivet.dk", choosing which metadata files may be deleted, and choosing which archive
 * files do not belong to the job and are moved away.
 */
module HarvestDocumentation {
  import opened Basics
  import opened Strings

  // ---------------------------------------------------------------------------------------
  // Query part of the CDX URIs
  // ---------------------------------------------------------------------------------------

  const CdxUriVersionParameters := "majorversion=2&minorversion=0"
  const AlternateCdxUriVersionParameters := "majorversion=3&minorversion=0"
  const HarvestIdParameterName := "harvestid"
  const JobIdParameterName := "jobid"
  const FilenameParameterName := "filename"

  /**
   * `getCDXURIQuery`: the version parameters followed by harvest id, job id and filename. The
   * query opens with the version parameters, ends with the filename, and adds 57 fixed
   * characters to the three values.
   */
  function CdxUriQuery(harvestId: string, jobId: string, filename: string): (q: string)
    ensures CdxUriVersionParameters <= q
    ensures |q| == |harvestId| + |jobId| + |filename| + 57
    ensures q[|q| - |filename|..] == filename
  {
    CdxUriVersionParameters
      + "&" + HarvestIdParameterName + "=" + harvestId
      + "&" + JobIdParameterName + "=" + jobId
      + "&" + FilenameParameterName + "=" + filename
  }

  /**
   * `getAlternateCDXURIQuery`: the version 3 parameters followed by the decimal job id and the
   * filename. The query opens with the version parameters, ends with the filename, and adds 46
   * fixed characters to the two values.
   */
  function AlternateCdxUriQuery(jobId: int, filename: string): (q: string)
    ensures AlternateCdxUriVersionParameters <= q
    ensures |q| == |DecimalString(jobId)| + |filename| + 46
    ensures q[|q| - |filename|..] == filename
  {
    AlternateCdxUriVersionParameters
      + "&" + JobIdParameterName + "=" + DecimalString(jobId)
      + "&" + FilenameParameterName + "=" + filename
  }

  /** The query in full: `majorversion=2&minorversion=0&harvestid=h&jobid=j&filename=f`. */
  lemma CdxUriQueryText(harvestId: string, jobId: string, filename: string)
    ensures CdxUriQuery(harvestId, jobId, filename)
         == "majorversion=2&minorversion=0&harvestid=" + harvestId + "&jobid=" + jobId + "&filename=" + filename
  {
    assert CdxUriVersionParameters + "&" + HarvestIdParameterName + "=" == "majorversion=2&minorversion=0&harvestid=";
    assert "&" + JobIdParameterName + "=" == "&jobid=";
    assert "&" + FilenameParameterName + "=" == "&filename=";
  }

  /** The alternate query in full: `majorversion=3&minorversion=0&jobid=<decimal j>&filename=f`. */
  lemma AlternateCdxUriQueryText(jobId: int, filename: string)
    ensures AlternateCdxUriQuery(jobId, filename)
         == "majorversion=3&minorversion=0&jobid=" + DecimalString(jobId) + "&filename=" + filename
  {
    assert AlternateCdxUriVersionParameters + "&" + JobIdParameterName + "=" == "majorversion=3&minorversion=0&jobid=";
    assert "&" + FilenameParameterName + "=" == "&filename=";
  }

  /** The version parameters are two `name=value` assignments joined by `&`. */
  lemma VersionParametersSplit()
    ensures CdxUriVersionParameters == "majorversion=2" + "&" + "minorversion=0"
    ensures AlternateCdxUriVersionParameters == "majorversion=3" + "&" + "minorversion=0"
  {
  }

  /** Appending `&name=value` assignments to `major&minor` is joining all of them by `&`. */
  lemma AssignmentsJoin(major: string, minor: string, versions: string, names: seq<string>, values: seq<string>)
    requires versions == major + "&" + minor
    requires |names| == |values| && (|names| == 2 || |names| == 3)
    ensures |names| == 2 ==>
      JoinOn([major, minor, names[0] + "=" + values[0], names[1] + "=" + values[1]], '&')
      == versions + "&" + names[0] + "=" + values[0] + "&" + names[1] + "=" + values[1]
    ensures |names| == 3 ==>
      JoinOn([major, minor, names[0] + "=" + values[0], names[1] + "=" + values[1], names[2] + "=" + values[2]], '&')
      == versions + "&" + names[0] + "=" + values[0] + "&" + names[1] + "=" + values[1] + "&" + names[2] + "=" + values[2]
  {
    if |names| == 2 {
      JoinOnFour(major, minor, names[0] + "=" + values[0], names[1] + "=" + values[1], '&');
    } else {
      JoinOnFive(major, minor, names[0] + "=" + values[0], names[1] + "=" + values[1], names[2] + "=" + values[2], '&');
    }
  }

  /** The query is its five `name=value` assignments joined by `&`. */
  lemma CdxUriQueryIsJoin(harvestId: string, jobId: string, filename: string)
    ensures JoinOn(["majorversion=2", "minorversion=0", HarvestIdParameterName + "=" + harvestId,
                    JobIdParameterName + "=" + jobId, FilenameParameterName + "=" + filename], '&')
         == CdxUriQuery(harvestId, jobId, filename)
  {
    VersionParametersSplit();
    AssignmentsJoin("majorversion=2", "minorversion=0", CdxUriVersionParameters,
                    [HarvestIdParameterName, JobIdParameterName, FilenameParameterName], [harvestId, jobId, filename]);
  }

  /**
   * When no value holds an `&`, cutting the query at `&` gives back exactly the five
   * `name=value` assignments, in order, each value unchanged.
   */
  lemma CdxUriQueryFields(harvestId: string, jobId: string, filename: string)
    requires '&' !in harvestId && '&' !in jobId && '&' !in filename
    ensures SplitOn(CdxUriQuery(harvestId, jobId, filename), '&')
         == ["majorversion=2", "minorversion=0", HarvestIdParameterName + "=" + harvestId,
             JobIdParameterName + "=" + jobId, FilenameParameterName + "=" + filename]
  {
    var parts := ["majorversion=2", "minorversion=0", HarvestIdParameterName + "=" + harvestId,
                  JobIdParameterName + "=" + jobId, FilenameParameterName + "=" + filename];
    CdxUriQueryIsJoin(harvestId, jobId, filename);
    forall i | 0 <= i < |parts| ensures '&' !in parts[i] {
      assert i == 0 || i == 1 || i == 2 || i == 3 || i == 4;
    }
    SplitJoin(parts, '&');
  }

  /** The alternate query is its four `name=value` assignments joined by `&`. */
  lemma AlternateCdxUriQueryIsJoin(jobId: int, filename: string)
    ensures JoinOn(["majorversion=3", "minorversion=0", JobIdParameterName + "=" + DecimalString(jobId),
                    FilenameParameterName + "=" + filename], '&')
         == AlternateCdxUriQuery(jobId, filename)
  {
    VersionParametersSplit();
    AssignmentsJoin("majorversion=3", "minorversion=0", AlternateCdxUriVersionParameters,
                    [JobIdParameterName, FilenameParameterName], [DecimalString(jobId), filename]);
  }

  /**
   * When the filename holds no `&`, cutting the alternate query at `&` gives back the four
   * assignments, the job id written in decimal.
   */
  lemma AlternateCdxUriQueryFields(jobId: int, filename: string)
    requires '&' !in filename
    ensures SplitOn(AlternateCdxUriQuery(jobId, filename), '&')
         == ["majorversion=3", "minorversion=0", JobIdParameterName + "=" + DecimalString(jobId),
             FilenameParameterName + "=" + filename]
  {
    var parts := ["majorversion=3", "minorversion=0", JobIdParameterName + "=" + DecimalString(jobId),
                  FilenameParameterName + "=" + filename];
    AlternateCdxUriQueryIsJoin(jobId, filename);
    forall i | 0 <= i < |parts| ensures '&' !in parts[i] {
      assert i == 0 || i == 1 || i == 2 || i == 3;
    }
    SplitJoin(parts, '&');
  }

  // ---------------------------------------------------------------------------------------
  // Reversed domain names
  // ---------------------------------------------------------------------------------------

  function Reverse<T>(s: seq<T>): (r: seq<T>)
    ensures |r| == |s|
  {
    if s == [] then [] else Reverse(s[1..]) + [s[0]]
  }

  lemma {:induction false} ReverseReverse<T>(s: seq<T>)
    ensures Reverse(Reverse(s)) == s
  {
    if s != [] {
      ReverseAppend(Reverse(s[1..]), [s[0]]);
      ReverseReverse(s[1..]);
      assert s == [s[0]] + s[1..];
    }
  }

  lemma {:induction false} ReverseAppend<T>(a: seq<T>, b: seq<T>)
    ensures Reverse(a + b) == Reverse(b) + Reverse(a)
  {
    if a == [] {
      assert a + b == b;
    } else {
      assert (a + b)[1..] == a[1..] + b;
      ReverseAppend(a[1..], b);
    }
  }

  /** `"." + l1 + "." + ... + "." + ln`: the reversed-domain form of a path of directory names. */
  function DottedPath(labels: seq<string>): string {
    if labels == [] then "" else "." + labels[0] + DottedPath(labels[1..])
  }

  lemma {:induction false} DottedPathSnoc(labels: seq<string>, last: string)
    ensures DottedPath(labels + [last]) == DottedPath(labels) + "." + last
  {
    if labels != [] {
      assert (labels + [last])[1..] == labels[1..] + [last];
      DottedPathSnoc(labels[1..], last);
    } else {
      assert [last][1..] == [];
    }
  }

  /** The dotted path is the labels joined by `.` after an empty first part. */
  lemma {:induction false} DottedPathIsJoin(labels: seq<string>)
    ensures DottedPath(labels) == JoinOn([""] + labels, '.')
    decreases |labels|
  {
    if labels != [] {
      var init := labels[..|labels| - 1];
      var last := labels[|labels| - 1];
      assert labels == init + [last];
      DottedPathSnoc(init, last);
      DottedPathIsJoin(init);
      assert ([""] + labels)[..|labels|] == [""] + init;
    }
  }

  /** Each part followed by a dot: the value `domain` has inside `reverseDomainString`'s loop. */
  function DotTerminated(labels: seq<string>): string {
    if labels == [] then "" else DotTerminated(labels[..|labels| - 1]) + labels[|labels| - 1] + "."
  }

  lemma {:induction false} DotTerminatedIsJoin(labels: seq<string>)
    requires |labels| >= 1
    ensures DotTerminated(labels) == JoinOn(labels, '.') + "."
  {
    if |labels| > 1 {
      DotTerminatedIsJoin(labels[..|labels| - 1]);
    }
  }

  /** Taking one more part in front of those taken adds it, dot-terminated, at the end of `domain`. */
  lemma DotTerminatedPrepend(taken: seq<string>, part: string)
    ensures DotTerminated(Reverse([part] + taken)) == DotTerminated(Reverse(taken)) + part + "."
  {
    assert Reverse([part] + taken) == Reverse(taken) + [part] by {
      assert ([part] + taken)[1..] == taken;
    }
    assert (Reverse(taken) + [part])[..|taken|] == Reverse(taken);
  }

  /**
   * What `reverseDomainString` returns: the parts after the first dot in reverse order, joined
   * by dots; the part before the first dot is dropped. `None` when there is no dot, where the
   * source's `substring(0, -1)` throws.
   */
  function ReversedDomain(reversedDomain: string): (r: Option<string>)
    ensures r.None? <==> '.' !in reversedDomain
  {
    var parts := SplitOn(reversedDomain, '.');
    if |parts| == 1 then None else Some(JoinOn(Reverse(parts[1..]), '.'))
  }

  /** `reverseDomainString`: a loop taking the text after the last dot until no dot is left. */
  method ReverseDomainString(reversedDomain: string) returns (r: Option<string>)
    ensures r == ReversedDomain(reversedDomain)
  {
    var domain := "";
    var remaining := reversedDomain;
    var lastDotIndex := LastIndexOf(remaining, '.');
    ghost var taken: seq<string> := [];
    while lastDotIndex != -1
      invariant lastDotIndex == LastIndexOf(remaining, '.')
      invariant SplitOn(reversedDomain, '.') == SplitOn(remaining, '.') + taken
      invariant domain == DotTerminated(Reverse(taken))
      decreases |remaining|
    {
      var part := remaining[lastDotIndex + 1..];
      SplitAtLastDot(reversedDomain, remaining, taken);
      DotTerminatedPrepend(taken, part);
      domain := domain + part + ".";
      taken := [part] + taken;
      remaining := remaining[..lastDotIndex];
      lastDotIndex := LastIndexOf(remaining, '.');
    }
    ReversedDomainOfTaken(reversedDomain, remaining, taken);
    if |domain| == 0 {
      // `domain.substring(0, -1)` throws StringIndexOutOfBoundsException
      r := None;
    } else {
      r := Some(domain[..|domain| - 1]);
    }
  }

  /** One round of the loop: the part after the last dot moves from `remaining` to `taken`. */
  lemma SplitAtLastDot(reversedDomain: string, remaining: string, taken: seq<string>)
    requires LastIndexOf(remaining, '.') != -1
    requires SplitOn(reversedDomain, '.') == SplitOn(remaining, '.') + taken
    ensures var k := LastIndexOf(remaining, '.');
      SplitOn(reversedDomain, '.') == SplitOn(remaining[..k], '.') + ([remaining[k + 1..]] + taken)
  {
    var k := LastIndexOf(remaining, '.');
    assert SplitOn(remaining, '.') == SplitOn(remaining[..k], '.') + [remaining[k + 1..]];
  }

  /** When no dot is left, `domain` without its final dot is the result, or there is none. */
  lemma ReversedDomainOfTaken(reversedDomain: string, remaining: string, taken: seq<string>)
    requires LastIndexOf(remaining, '.') == -1
    requires SplitOn(reversedDomain, '.') == SplitOn(remaining, '.') + taken
    ensures var domain := DotTerminated(Reverse(taken));
      && (|domain| == 0 ==> ReversedDomain(reversedDomain) == None)
      && (|domain| != 0 ==> ReversedDomain(reversedDomain) == Some(domain[..|domain| - 1]))
  {
    var parts := SplitOn(reversedDomain, '.');
    assert parts == [remaining] + taken;
    assert parts[1..] == taken;
    if taken != [] {
      DotTerminatedIsJoin(Reverse(taken));
    }
  }

  /**
   * For the form the settings walk produces, `"." + l1 + ... + "." + ln` with dot-free labels,
   * the result is `ln + "." + ... + "." + l1`.
   */
  lemma ReversedDottedPath(labels: seq<string>)
    requires |labels| >= 1
    requires forall i :: 0 <= i < |labels| ==> '.' !in labels[i]
    ensures ReversedDomain(DottedPath(labels)) == Some(JoinOn(Reverse(labels), '.'))
  {
    DottedPathIsJoin(labels);
    var parts := [""] + labels;
    forall i | 0 <= i < |parts| ensures '.' !in parts[i] {
      if i > 0 { assert parts[i] == labels[i - 1]; }
    }
    SplitJoin(parts, '.');
    assert parts[1..] == labels;
  }

  /** A domain `l1.l2...ln` stored under the directories `ln/.../l1` is recovered exactly. */
  lemma DomainRoundTrip(labels: seq<string>)
    requires |labels| >= 1
    requires forall i :: 0 <= i < |labels| ==> '.' !in labels[i]
    ensures ReversedDomain(DottedPath(Reverse(labels))) == Some(JoinOn(labels, '.'))
  {
    var rev := Reverse(labels);
    forall i | 0 <= i < |rev| ensures '.' !in rev[i] {
      ReverseAt(labels, i);
    }
    ReversedDottedPath(rev);
    ReverseReverse(labels);
  }

  lemma {:induction false} ReverseAt<T>(s: seq<T>, i: nat)
    requires i < |s|
    ensures Reverse(s)[i] == s[|s| - 1 - i]
  {
    if i < |s| - 1 {
      ReverseAt(s[1..], i);
    }
  }

  /**
   * Without a leading dot the first part is lost: the parts after the first one come back
   * reversed, so "com.amazon" gives "amazon" and not "amazon.com" as the method's comment says.
   */
  lemma FirstLabelDropped(parts: seq<string>)
    requires |parts| >= 2
    requires forall i :: 0 <= i < |parts| ==> '.' !in parts[i]
    ensures ReversedDomain(JoinOn(parts, '.')) == Some(JoinOn(Reverse(parts[1..]), '.'))
  {
    SplitJoin(parts, '.');
  }

  /**
   * Two dot-free labels: `"." + a + "." + b` gives `b + "." + a` (".dk.netarkivet" gives
   * "netarkivet.dk"), but `a + "." + b` gives only `b`: the example of the method's comment,
   * "com.amazon", gives "amazon" and not "amazon.com".
   */
  lemma ReversedTwoLabels(first: string, second: string)
    requires '.' !in first && '.' !in second
    ensures ReversedDomain("." + first + "." + second) == Some(second + "." + first)
    ensures ReversedDomain(first + "." + second) == Some(second)
  {
    var labels := [first, second];
    assert DottedPath(labels) == "." + first + "." + second by {
      assert labels[1..] == [second];
      assert [second][1..] == [];
      assert DottedPath([second]) == "." + second + "";
      assert "." + second + "" == "." + second;
    }
    ReversedDottedPath(labels);
    assert Reverse(labels) == [second, first] by {
      assert labels[1..] == [second];
      assert [second][1..] == [];
    }
    JoinOnSnoc([second], '.', first);
    assert [second] + [first] == [second, first];
    JoinOnSnoc([first], '.', second);
    assert [first] + [second] == labels;
    FirstLabelDropped(labels);
    assert labels[1..] == [second];
  }

  /** A name without any dot, such as "", cannot be reversed: the source throws. */
  lemma ReversedDomainWithoutDot()
    ensures ReversedDomain("") == None
    ensures ReversedDomain("dk") == None
  {
  }

  // ---------------------------------------------------------------------------------------
  // The walk over the settings directory
  // ---------------------------------------------------------------------------------------

  /** The name of the domain-specific settings file looked for in each directory. */
  const DomainSettingsFile := "settings.xml"

  /** A node of a directory tree: a plain file, or a directory with its listing in listing order. */
  datatype Entry = FileEntry(name: string) | DirEntry(name: string, listing: seq<Entry>)

  /** What one entry of a listing contributes to the walk. */
  function EntryDomains(e: Entry, domainReversed: string): seq<string>
    decreases e, 1
  {
    match e
    case DirEntry(n, l) => ListingDomains(l, domainReversed + "." + n)
    case FileEntry(n) => if n == DomainSettingsFile then [domainReversed] else []
  }

  /** What a listing contributes: the contributions of its entries, in listing order. */
  function ListingDomains(listing: seq<Entry>, domainReversed: string): seq<string>
    decreases listing, 0
  {
    if listing == [] then []
    else ListingDomains(listing[..|listing| - 1], domainReversed) + EntryDomains(listing[|listing| - 1], domainReversed)
  }

  /** The result of the walk from `directory`: nothing unless it is a directory. */
  function DomainsWithSettings(directory: Entry, domainReversed: string): seq<string> {
    if directory.DirEntry? then ListingDomains(directory.listing, domainReversed) else []
  }

  /** `findAllDomainsWithSettings`: recurse into each sub-directory, record the prefix at each settings file. */
  method FindAllDomainsWithSettings(directory: Entry, domainReversed: string) returns (filesToReturn: seq<string>)
    ensures !directory.DirEntry? ==> filesToReturn == []
    ensures filesToReturn == DomainsWithSettings(directory, domainReversed)
    decreases directory
  {
    if !directory.DirEntry? {
      return [];
    }
    filesToReturn := [];
    for i := 0 to |directory.listing|
      invariant filesToReturn == ListingDomains(directory.listing[..i], domainReversed)
    {
      var fileInDir := directory.listing[i];
      assert directory.listing[..i + 1][..i] == directory.listing[..i];
      if fileInDir.DirEntry? {
        var resultList := FindAllDomainsWithSettings(fileInDir, domainReversed + "." + fileInDir.name);
        if resultList != [] {
          filesToReturn := filesToReturn + resultList;
        }
      } else if fileInDir.name == DomainSettingsFile {
        filesToReturn := filesToReturn + [domainReversed];
      }
    }
    assert directory.listing[..|directory.listing|] == directory.listing;
  }

  /**
   * The listing holds the settings file directly (empty path), or a sub-directory named
   * `path[0]` whose listing holds it along the rest of the path.
   */
  ghost predicate SettingsAlong(listing: seq<Entry>, path: seq<string>)
    decreases listing
  {
    if path == [] then FileEntry(DomainSettingsFile) in listing
    else exists i :: 0 <= i < |listing| && listing[i].DirEntry? && listing[i].name == path[0]
                     && SettingsAlong(listing[i].listing, path[1..])
  }

  /** The walk finds `s` exactly when `s` is the prefix followed by the dotted path to a settings file. */
  lemma {:induction false} ListingDomainsMembership(listing: seq<Entry>, prefix: string, s: string)
    ensures s in ListingDomains(listing, prefix)
        <==> exists path :: SettingsAlong(listing, path) && s == prefix + DottedPath(path)
    decreases listing
  {
    if s in ListingDomains(listing, prefix) {
      var path := FoundHasPath(listing, prefix, s);
    }
    if exists path :: SettingsAlong(listing, path) && s == prefix + DottedPath(path) {
      var path :| SettingsAlong(listing, path) && s == prefix + DottedPath(path);
      PathIsFound(listing, prefix, path);
    }
  }

  /** Every string the walk returns names a path to a settings file. */
  lemma {:induction false} FoundHasPath(listing: seq<Entry>, prefix: string, s: string) returns (path: seq<string>)
    requires s in ListingDomains(listing, prefix)
    ensures SettingsAlong(listing, path) && s == prefix + DottedPath(path)
    decreases listing
  {
    var init := listing[..|listing| - 1];
    var last := listing[|listing| - 1];
    if s in ListingDomains(init, prefix) {
      path := FoundHasPath(init, prefix, s);
      SettingsAlongExtends(init, last, path);
      assert listing == init + [last];
    } else if last.FileEntry? {
      path := [];
      assert last in listing;
    } else {
      var rest := FoundHasPath(last.listing, prefix + "." + last.name, s);
      path := LastDirectoryPath(listing, prefix, s, rest);
    }
  }

  /** A path found inside the last entry, a directory, extends to a path from the listing. */
  lemma LastDirectoryPath(listing: seq<Entry>, prefix: string, s: string, rest: seq<string>) returns (path: seq<string>)
    requires listing != [] && listing[|listing| - 1].DirEntry?
    requires SettingsAlong(listing[|listing| - 1].listing, rest)
    requires s == prefix + "." + listing[|listing| - 1].name + DottedPath(rest)
    ensures SettingsAlong(listing, path) && s == prefix + DottedPath(path)
  {
    path := [listing[|listing| - 1].name] + rest;
    assert path[1..] == rest;
  }

  lemma SettingsAlongExtends(init: seq<Entry>, last: Entry, path: seq<string>)
    requires SettingsAlong(init, path)
    ensures SettingsAlong(init + [last], path)
  {
    if path != [] {
      var i :| 0 <= i < |init| && init[i].DirEntry? && init[i].name == path[0] && SettingsAlong(init[i].listing, path[1..]);
      assert (init + [last])[i] == init[i];
    }
  }

  /** Every path to a settings file is found by the walk. */
  lemma {:induction false} PathIsFound(listing: seq<Entry>, prefix: string, path: seq<string>)
    requires SettingsAlong(listing, path)
    ensures prefix + DottedPath(path) in ListingDomains(listing, prefix)
    decreases listing
  {
    var init := listing[..|listing| - 1];
    var last := listing[|listing| - 1];
    assert listing == init + [last];
    if path == [] {
      assert prefix + DottedPath(path) == prefix;
      if last == FileEntry(DomainSettingsFile) {
        assert EntryDomains(last, prefix) == [prefix];
      } else {
        var k :| 0 <= k < |listing| && listing[k] == FileEntry(DomainSettingsFile);
        assert init[k] == listing[k];
        PathIsFound(init, prefix, path);
      }
    } else {
      var i :| 0 <= i < |listing| && listing[i].DirEntry? && listing[i].name == path[0]
               && SettingsAlong(listing[i].listing, path[1..]);
      var child := listing[i];
      var s := prefix + DottedPath(path);
      assert s == (prefix + "." + path[0]) + DottedPath(path[1..]);
      if i == |listing| - 1 {
        PathIsFound(child.listing, prefix + "." + child.name, path[1..]);
      } else {
        assert init[i] == child;
        PathIsFound(init, prefix, path);
      }
    }
  }

  /** For a directory: the walk finds `s` exactly when `s` is the prefix plus the dotted path to a settings file. */
  lemma DomainsWithSettingsMembership(directory: Entry, prefix: string, s: string)
    ensures s in DomainsWithSettings(directory, prefix)
        <==> directory.DirEntry? && exists path :: SettingsAlong(directory.listing, path) && s == prefix + DottedPath(path)
  {
    if directory.DirEntry? {
      ListingDomainsMembership(directory.listing, prefix, s);
    }
  }

  /** The directory paths to the settings files, in the order the walk reaches them. */
  function SettingsPaths(listing: seq<Entry>): seq<seq<string>>
    decreases listing, 0
  {
    if listing == [] then []
    else SettingsPaths(listing[..|listing| - 1]) + EntryPaths(listing[|listing| - 1])
  }

  /** The paths one entry of a listing contributes. */
  function EntryPaths(e: Entry): seq<seq<string>>
    decreases e, 1
  {
    match e
    case DirEntry(n, l) => PrependName(n, SettingsPaths(l))
    case FileEntry(n) => if n == DomainSettingsFile then [[]] else []
  }

  /** Each path with the directory name `n` in front. */
  function PrependName(n: string, paths: seq<seq<string>>): (r: seq<seq<string>>)
    ensures |r| == |paths|
    ensures forall i :: 0 <= i < |paths| ==> r[i] == [n] + paths[i]
  {
    if paths == [] then [] else PrependName(n, paths[..|paths| - 1]) + [[n] + paths[|paths| - 1]]
  }

  /** The names in one listing are unique, as in any directory. */
  ghost predicate UniqueNames(listing: seq<Entry>) {
    forall i, j :: 0 <= i < j < |listing| ==> listing[i].name != listing[j].name
  }

  /** Every directory of the tree has unique names in its listing. */
  ghost predicate WellNamed(e: Entry)
    decreases e
  {
    match e
    case FileEntry(_) => true
    case DirEntry(_, l) => UniqueNames(l) && forall i :: 0 <= i < |l| ==> WellNamed(l[i])
  }

  ghost predicate Distinct<T>(s: seq<T>) {
    forall i, j :: 0 <= i < j < |s| ==> s[i] != s[j]
  }

  /** The walk yields, entry by entry, the prefix followed by the dotted path to each settings file. */
  lemma {:induction false} ListingDomainsFollowPaths(listing: seq<Entry>, prefix: string)
    ensures |ListingDomains(listing, prefix)| == |SettingsPaths(listing)|
    ensures forall i :: 0 <= i < |SettingsPaths(listing)| ==>
              ListingDomains(listing, prefix)[i] == prefix + DottedPath(SettingsPaths(listing)[i])
    decreases listing
  {
    if listing != [] {
      var init, last := listing[..|listing| - 1], listing[|listing| - 1];
      ListingDomainsFollowPaths(init, prefix);
      var found, paths := ListingDomains(listing, prefix), SettingsPaths(listing);
      var k := |SettingsPaths(init)|;
      match last
      case FileEntry(n) =>
        assert prefix + DottedPath([]) == prefix;
      case DirEntry(n, l) =>
        ListingDomainsFollowPaths(l, prefix + "." + n);
        forall i | k <= i < |paths|
          ensures found[i] == prefix + DottedPath(paths[i])
        {
          var q := SettingsPaths(l)[i - k];
          assert paths[i] == [n] + q;
          assert ([n] + q)[1..] == q;
          assert found[i] == (prefix + "." + n) + DottedPath(q);
        }
    }
  }

  /** A path is among the settings paths exactly when it leads to a settings file. */
  lemma SettingsPathsMembership(listing: seq<Entry>, path: seq<string>)
    ensures path in SettingsPaths(listing) <==> SettingsAlong(listing, path)
  {
    if path in SettingsPaths(listing) {
      SettingsPathLeadsToSettings(listing, path);
    }
    if SettingsAlong(listing, path) {
      SettingsPathIsListed(listing, path);
    }
  }

  lemma {:induction false} SettingsPathLeadsToSettings(listing: seq<Entry>, path: seq<string>)
    requires path in SettingsPaths(listing)
    ensures SettingsAlong(listing, path)
    decreases listing
  {
    var init, last := listing[..|listing| - 1], listing[|listing| - 1];
    if path in SettingsPaths(init) {
      SettingsPathLeadsToSettings(init, path);
      SettingsAlongExtends(init, last, path);
      assert listing == init + [last];
    } else {
      match last
      case FileEntry(n) =>
        assert last in listing;
      case DirEntry(n, l) =>
        var j :| 0 <= j < |SettingsPaths(l)| && path == [n] + SettingsPaths(l)[j];
        SettingsPathLeadsToSettings(l, SettingsPaths(l)[j]);
        assert path[1..] == SettingsPaths(l)[j];
        assert listing[|listing| - 1] == last;
    }
  }

  lemma {:induction false} SettingsPathIsListed(listing: seq<Entry>, path: seq<string>)
    requires SettingsAlong(listing, path)
    ensures path in SettingsPaths(listing)
    decreases listing
  {
    var init, last := listing[..|listing| - 1], listing[|listing| - 1];
    if path == [] {
      if last != FileEntry(DomainSettingsFile) {
        var k :| 0 <= k < |listing| && listing[k] == FileEntry(DomainSettingsFile);
        assert init[k] == listing[k];
        SettingsPathIsListed(init, path);
      }
    } else {
      var i :| 0 <= i < |listing| && listing[i].DirEntry? && listing[i].name == path[0]
               && SettingsAlong(listing[i].listing, path[1..]);
      if i == |listing| - 1 {
        var l := last.listing;
        SettingsPathIsListed(l, path[1..]);
        var j :| 0 <= j < |SettingsPaths(l)| && SettingsPaths(l)[j] == path[1..];
        assert path == [last.name] + path[1..];
        assert EntryPaths(last)[j] == path;
      } else {
        assert init[i] == listing[i];
        SettingsPathIsListed(init, path);
      }
    }
  }

  /** A path found among earlier entries is not one the last entry contributes, names being unique. */
  lemma EarlierPathNotRepeated(init: seq<Entry>, last: Entry, path: seq<string>)
    requires UniqueNames(init + [last])
    requires SettingsAlong(init, path)
    ensures path !in EntryPaths(last)
  {
    var listing := init + [last];
    if path == [] {
      var k :| 0 <= k < |init| && init[k] == FileEntry(DomainSettingsFile);
      assert listing[k] == init[k] && listing[|init|] == last;
      if last.DirEntry? {
        assert forall q :: q in EntryPaths(last) ==> |q| > 0;
      }
    } else {
      var k :| 0 <= k < |init| && init[k].DirEntry? && init[k].name == path[0]
               && SettingsAlong(init[k].listing, path[1..]);
      assert listing[k] == init[k] && listing[|init|] == last;
      if last.DirEntry? {
        assert forall q :: q in EntryPaths(last) ==> |q| > 0 && q[0] == last.name;
      }
    }
  }

  /** With unique names in every listing, no settings path is reached twice. */
  lemma {:induction false} SettingsPathsDistinct(listing: seq<Entry>)
    requires UniqueNames(listing) && forall i :: 0 <= i < |listing| ==> WellNamed(listing[i])
    ensures Distinct(SettingsPaths(listing))
    decreases listing
  {
    if listing != [] {
      var init, last := listing[..|listing| - 1], listing[|listing| - 1];
      assert listing == init + [last];
      assert forall i :: 0 <= i < |init| ==> init[i] == listing[i];
      SettingsPathsDistinct(init);
      var a, b := SettingsPaths(init), EntryPaths(last);
      if last.DirEntry? {
        var n, l := last.name, last.listing;
        assert WellNamed(last);
        SettingsPathsDistinct(l);
        forall i, j | 0 <= i < j < |b| ensures b[i] != b[j] {
          var p, q := SettingsPaths(l)[i], SettingsPaths(l)[j];
          assert ([n] + p)[1..] == p && ([n] + q)[1..] == q;
        }
      }
      forall i, j | 0 <= i < |a| && 0 <= j < |b| ensures a[i] != b[j] {
        SettingsPathLeadsToSettings(init, a[i]);
        EarlierPathNotRepeated(init, last, a[i]);
      }
      forall i, j | 0 <= i < j < |a + b| ensures (a + b)[i] != (a + b)[j] {
        if i >= |a| {
          assert (a + b)[i] == b[i - |a|] && (a + b)[j] == b[j - |a|];
        } else if j >= |a| {
          assert (a + b)[j] == b[j - |a|];
        }
      }
    }
  }

  /**
   * Each directory that directly holds the settings file contributes exactly one entry: the
   * result lists, in walk order, one string per path to a settings file, and no path twice.
   */
  lemma WalkListsEachSettingsDirectoryOnce(directory: Entry, prefix: string)
    requires directory.DirEntry? && WellNamed(directory)
    ensures var found, paths := DomainsWithSettings(directory, prefix), SettingsPaths(directory.listing);
      && Distinct(paths)
      && (forall path :: path in paths <==> SettingsAlong(directory.listing, path))
      && |found| == |paths|
      && forall i :: 0 <= i < |paths| ==> found[i] == prefix + DottedPath(paths[i])
  {
    ListingDomainsFollowPaths(directory.listing, prefix);
    SettingsPathsDistinct(directory.listing);
    forall path {
      SettingsPathsMembership(directory.listing, path);
    }
  }

  /**
   * A settings file directly under the top settings directory is reported with the empty
   * reversed domain, which `reverseDomainString` then fails on.
   */
  lemma SettingsFileAtTopFails(settingsDir: Entry)
    requires settingsDir.DirEntry? && FileEntry(DomainSettingsFile) in settingsDir.listing
    ensures "" in DomainsWithSettings(settingsDir, "")
    ensures ReversedDomain("") == None
  {
    PathIsFound(settingsDir.listing, "", []);
    assert "" + DottedPath([]) == "";
  }

  /**
   * The example tree `settings/dk/netarkivet/settings.xml` gives ".dk.netarkivet", of the form
   * `"." + a + "." + b` that `ReversedTwoLabels` reverses.
   */
  lemma SettingsWalkExample()
    ensures var tree := DirEntry("settings", [DirEntry("dk", [DirEntry("netarkivet", [FileEntry(DomainSettingsFile)])])]);
      DomainsWithSettings(tree, "") == [".dk.netarkivet"]
  {
    var leaf := DirEntry("netarkivet", [FileEntry(DomainSettingsFile)]);
    var dk := DirEntry("dk", [leaf]);
    var tree := DirEntry("settings", [dk]);
    assert [FileEntry(DomainSettingsFile)][..0] == [];
    assert ".dk" + "." + "netarkivet" == ".dk.netarkivet";
    assert "" + "." + "dk" == ".dk";
    assert ListingDomains(leaf.listing, ".dk.netarkivet") == [".dk.netarkivet"];
    assert [leaf][..0] == [];
    assert EntryDomains(leaf, ".dk") == [".dk.netarkivet"];
    assert ListingDomains(dk.listing, ".dk") == [".dk.netarkivet"];
    assert [dk][..0] == [];
    assert EntryDomains(dk, "") == [".dk.netarkivet"];
    assert ListingDomains(tree.listing, "") == [".dk.netarkivet"];
  }

  // ---------------------------------------------------------------------------------------
  // The two list filters
  // ---------------------------------------------------------------------------------------

  /** A file as a directory path and a name (`getName()`). */
  datatype LocalFile = LocalFile(dir: string, name: string)

  /** The files that stay after documentation because later steps read them. */
  predicate IsKeptForLater(f: LocalFile) {
    f.name == "crawl.log" || f.name == "harvestInfo.xml" || f.name == "progress-statistics.log"
  }

  /** No file of the list is one of those kept for later. */
  predicate NoneKeptForLater(files: seq<LocalFile>) {
    forall i :: 0 <= i < |files| ==> !IsKeptForLater(files[i])
  }

  /** The files that may be deleted: all others, in their original order. */
  function Deletable(files: seq<LocalFile>): (r: seq<LocalFile>)
    ensures |r| <= |files|
    ensures NoneKeptForLater(r)
  {
    if files == [] then []
    else Deletable(files[..|files| - 1]) + (if IsKeptForLater(files[|files| - 1]) then [] else [files[|files| - 1]])
  }

  /** The iterator loop in `documentHarvest` that removes the kept files from the list in place. */
  method RemoveFilesKeptForLater(filesAddedAndNowDeletable: seq<LocalFile>) returns (deletable: seq<LocalFile>)
    ensures deletable == Deletable(filesAddedAndNowDeletable)
  {
    deletable := filesAddedAndNowDeletable;
    var position := 0;
    ghost var visited := 0;
    ghost var done: seq<LocalFile> := [];
    while position < |deletable|
      invariant 0 <= visited <= |filesAddedAndNowDeletable|
      invariant done == Deletable(filesAddedAndNowDeletable[..visited])
      invariant position == |done| && deletable == done + filesAddedAndNowDeletable[visited..]
      decreases |deletable| - position
    {
      done := RemovalStep(filesAddedAndNowDeletable, visited, position, deletable);
      var f := deletable[position];
      if IsKeptForLater(f) {
        deletable := deletable[..position] + deletable[position + 1..];
      } else {
        position := position + 1;
      }
      visited := visited + 1;
    }
    assert filesAddedAndNowDeletable[..visited] == filesAddedAndNowDeletable;
  }

  /**
   * One round of the iterator loop: the cursor stands on the next unvisited file; removing it
   * (a kept file) or stepping past it (any other) re-establishes the loop's picture of the list.
   */
  lemma RemovalStep(files: seq<LocalFile>, visited: nat, position: nat, deletable: seq<LocalFile>)
    returns (done': seq<LocalFile>)
    requires position < |deletable|
    requires visited <= |files|
    requires position == |Deletable(files[..visited])|
    requires deletable == Deletable(files[..visited]) + files[visited..]
    ensures visited < |files| && deletable[position] == files[visited]
    ensures done' == Deletable(files[..visited + 1])
    ensures IsKeptForLater(files[visited]) ==>
      position == |done'| && deletable[..position] + deletable[position + 1..] == done' + files[visited + 1..]
    ensures !IsKeptForLater(files[visited]) ==>
      position + 1 == |done'| && deletable == done' + files[visited + 1..]
  {
    var done := Deletable(files[..visited]);
    var f := files[visited];
    var rest := files[visited + 1..];
    assert files[visited..] == [f] + rest;
    assert deletable == done + [f] + rest;
    DeletableStep(files, visited);
    done' := Deletable(files[..visited + 1]);
    assert deletable[..position] == done;
    assert deletable[position + 1..] == rest;
  }

  lemma DeletableStep(files: seq<LocalFile>, i: nat)
    requires i < |files|
    ensures Deletable(files[..i + 1]) == Deletable(files[..i]) + (if IsKeptForLater(files[i]) then [] else [files[i]])
  {
    assert files[..i + 1][..i] == files[..i];
  }

  /** A file is deletable exactly when it was in the list and is none of the three kept files. */
  lemma {:induction false} DeletableMembership(files: seq<LocalFile>, f: LocalFile)
    ensures f in Deletable(files) <==> f in files && !IsKeptForLater(f)
  {
    if files != [] {
      var init := files[..|files| - 1];
      DeletableMembership(init, f);
      assert files == init + [files[|files| - 1]];
    }
  }

  /**
   * The filter works piecewise: the deletable files of `a + b` are those of `a` followed by
   * those of `b`. So every remaining file keeps its place relative to the others, and a file
   * listed twice remains twice.
   */
  lemma {:induction false} DeletableSplit(a: seq<LocalFile>, b: seq<LocalFile>)
    ensures Deletable(a + b) == Deletable(a) + Deletable(b)
    decreases |b|
  {
    if b == [] {
      assert a + b == a;
    } else {
      var b' := b[..|b| - 1];
      assert (a + b)[..|a + b| - 1] == a + b';
      DeletableSplit(a, b');
    }
  }

  /** A list without kept files is left as it is, order included. */
  lemma {:induction false} DeletableKeepsOrder(files: seq<LocalFile>)
    requires NoneKeptForLater(files)
    ensures Deletable(files) == files
  {
    if files != [] {
      var init := files[..|files| - 1];
      assert NoneKeptForLater(init) by {
        forall i | 0 <= i < |init| ensures !IsKeptForLater(init[i]) {
          assert init[i] == files[i];
        }
      }
      DeletableKeepsOrder(init);
      assert files == init + [files[|files| - 1]];
    }
  }

  /** Archive files whose names do not start with the harvest-name prefix, in listing order. */
  function ForeignFiles(files: seq<LocalFile>, harvestnamePrefix: string): (r: seq<LocalFile>)
    ensures |r| <= |files|
    ensures forall i :: 0 <= i < |r| ==> !StartsWith(r[i].name, harvestnamePrefix)
  {
    if files == [] then []
    else (ForeignFiles(files[..|files| - 1], harvestnamePrefix)
      + if StartsWith(files[|files| - 1].name, harvestnamePrefix) then [] else [files[|files| - 1]])
  }

  /** Archive files whose names start with the harvest-name prefix, in listing order. */
  function OwnFiles(files: seq<LocalFile>, harvestnamePrefix: string): (r: seq<LocalFile>)
    ensures |r| <= |files|
    ensures forall i :: 0 <= i < |r| ==> StartsWith(r[i].name, harvestnamePrefix)
  {
    if files == [] then []
    else (OwnFiles(files[..|files| - 1], harvestnamePrefix)
      + if StartsWith(files[|files| - 1].name, harvestnamePrefix) then [files[|files| - 1]] else [])
  }

  /** Every archive file is either foreign or the job's own, never both and never lost. */
  lemma ForeignAndOwnPartition(files: seq<LocalFile>, harvestnamePrefix: string)
    ensures multiset(ForeignFiles(files, harvestnamePrefix)) + multiset(OwnFiles(files, harvestnamePrefix)) == multiset(files)
    ensures forall f :: f in ForeignFiles(files, harvestnamePrefix) <==> f in files && !StartsWith(f.name, harvestnamePrefix)
    ensures forall f :: f in OwnFiles(files, harvestnamePrefix) <==> f in files && StartsWith(f.name, harvestnamePrefix)
  {
    ForeignOwnMultiset(files, harvestnamePrefix);
    forall f {
      ForeignOwnMembership(files, harvestnamePrefix, f);
    }
  }

  lemma {:induction false} ForeignOwnMultiset(files: seq<LocalFile>, harvestnamePrefix: string)
    ensures multiset(ForeignFiles(files, harvestnamePrefix)) + multiset(OwnFiles(files, harvestnamePrefix)) == multiset(files)
  {
    if files != [] {
      var init, last := files[..|files| - 1], files[|files| - 1];
      ForeignOwnMultiset(init, harvestnamePrefix);
      assert files == init + [last];
    }
  }

  lemma {:induction false} ForeignOwnMembership(files: seq<LocalFile>, harvestnamePrefix: string, f: LocalFile)
    ensures f in ForeignFiles(files, harvestnamePrefix) <==> f in files && !StartsWith(f.name, harvestnamePrefix)
    ensures f in OwnFiles(files, harvestnamePrefix) <==> f in files && StartsWith(f.name, harvestnamePrefix)
  {
    if files != [] {
      var init, last := files[..|files| - 1], files[|files| - 1];
      ForeignOwnMembership(init, harvestnamePrefix, f);
      assert files == init + [last];
    }
  }

  /**
   * `moveAwayForeignFiles`: each archive file not starting with the prefix is renamed into the
   * lost-files directory. Creating that directory may be refused (PermissionDenied); the source
   * then logs and skips the file, so nothing is moved.
   */
  method MoveAwayForeignFiles(archiveFiles: seq<LocalFile>, harvestnamePrefix: string, lostfilesDir: string,
                              mayCreateLostfilesDir: bool)
    returns (movedFiles: seq<LocalFile>, leftInPlace: seq<LocalFile>)
    ensures var foreign := ForeignFiles(archiveFiles, harvestnamePrefix);
      && (mayCreateLostfilesDir ==>
            && |movedFiles| == |foreign|
            && (forall k :: 0 <= k < |foreign| ==> movedFiles[k] == LocalFile(lostfilesDir, foreign[k].name))
            && leftInPlace == OwnFiles(archiveFiles, harvestnamePrefix))
      && (!mayCreateLostfilesDir ==> movedFiles == [] && leftInPlace == archiveFiles)
  {
    movedFiles := [];
    leftInPlace := [];
    for i := 0 to |archiveFiles|
      invariant var foreign := ForeignFiles(archiveFiles[..i], harvestnamePrefix);
        && (mayCreateLostfilesDir ==>
              && |movedFiles| == |foreign|
              && (forall k :: 0 <= k < |foreign| ==> movedFiles[k] == LocalFile(lostfilesDir, foreign[k].name))
              && leftInPlace == OwnFiles(archiveFiles[..i], harvestnamePrefix))
        && (!mayCreateLostfilesDir ==> movedFiles == [] && leftInPlace == archiveFiles[..i])
    {
      var archiveFile := archiveFiles[i];
      assert archiveFiles[..i + 1][..i] == archiveFiles[..i];
      if !StartsWith(archiveFile.name, harvestnamePrefix) {
        if mayCreateLostfilesDir {
          movedFiles := movedFiles + [LocalFile(lostfilesDir, archiveFile.name)];
        } else {
          leftInPlace := leftInPlace + [archiveFile];
        }
      } else {
        leftInPlace := leftInPlace + [archiveFile];
      }
    }
    assert archiveFiles[..|archiveFiles|] == archiveFiles;
  }
}
