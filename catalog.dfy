/**
 * The course catalog page (app/page.tsx): turning a storage listing of PDF
 * file names into display courses, and the fetch that fills the page's
 * `courses` state with either that mapped list or the fixed sample list.
 */
module Catalog {
  import opened Wrappers
  import opened Text
  import opened SupabaseClient

  /** The display model every card is rendered from. */
  datatype Course = Course(id: string, name: string, description: string, pdfUrl: Option<string>)

  const Bucket := "pdfs"
  const PdfExtension := ".pdf"
  const DescriptionPrefix := "Learn about "
  const DescriptionSuffix := " with this comprehensive course material."
  const IdPrefix := "course-"

  /** The six placeholder courses shown whenever live data cannot be used; none links to a material. */
  const SampleCourses: seq<Course> := [
    Course("1", "Introduction to Web Development",
      "Learn the fundamentals of web development including HTML, CSS, and JavaScript. Perfect for beginners looking to start their coding journey.",
      None),
    Course("2", "React.js Masterclass",
      "Master React.js with hands-on projects and real-world examples. Build modern, interactive web applications from scratch.",
      None),
    Course("3", "Database Design Principles",
      "Understand database design concepts, normalization, and best practices for creating efficient and scalable database systems.",
      None),
    Course("4", "UI/UX Design Fundamentals",
      "Learn the principles of user interface and user experience design. Create beautiful and intuitive digital experiences.",
      None),
    Course("5", "Python for Data Science",
      "Explore data analysis and visualization using Python. Learn pandas, matplotlib, and other essential data science libraries.",
      None),
    Course("6", "Mobile App Development",
      "Build native mobile applications for iOS and Android. Learn the latest development tools and best practices.",
      None)
  ]

  /** A card shows the "Open Course Material" link exactly when `pdfUrl` is truthy; otherwise "Coming Soon". */
  predicate ShowsMaterialLink(c: Course)
    ensures ShowsMaterialLink(c) <==> c.pdfUrl.Some? && |c.pdfUrl.value| > 0
  {
    c.pdfUrl.Some? && c.pdfUrl.value != ""
  }

  predicate IsSeparator(c: char) {
    c == '-' || c == '_'
  }

  /** The global hyphen/underscore replacement: every `-` and `_` becomes a space, nothing else changes. */
  function SeparatorsToSpaces(s: string): (r: string)
    ensures |r| == |s|
    ensures forall i :: 0 <= i < |s| ==> r[i] == if IsSeparator(s[i]) then ' ' else s[i]
  {
    seq(|s|, i requires 0 <= i < |s| => if IsSeparator(s[i]) then ' ' else s[i])
  }

  /** Position `i` of `s` is matched by `\b\w`: a word character not preceded by a word character. */
  predicate StartsWord(s: string, i: nat)
    requires i < |s|
  {
    IsWord(s[i]) && (i == 0 || !IsWord(s[i - 1]))
  }

  /**
   * The left-to-right scan of the word-start capitalisation, from position
   * `k` of `s` to its end.
   */
  function CapitalizeFrom(s: string, k: nat): (r: string)
    requires k <= |s|
    ensures |r| == |s| - k
    ensures forall i :: k <= i < |s| ==> r[i - k] == if StartsWord(s, i) then Upper(s[i]) else s[i]
    decreases |s| - k
  {
    if k == |s| then [] else [if StartsWord(s, k) then Upper(s[k]) else s[k]] + CapitalizeFrom(s, k + 1)
  }

  /**
   * The global word-boundary replacement: the first character of each run of
   * word characters is upper-cased, nothing else changes.
   */
  function CapitalizeWords(s: string): (r: string)
    ensures |r| == |s|
    ensures forall i :: 0 <= i < |s| ==> r[i] == if StartsWord(s, i) then Upper(s[i]) else s[i]
  {
    CapitalizeFrom(s, 0)
  }

  /** A string-pattern replace of ".pdf" by nothing: the leftmost ".pdf", wherever it stands, is removed. */
  function StripPdf(name: string): (r: string)
    ensures IndexOf(name, PdfExtension).None? ==> r == name
    ensures IndexOf(name, PdfExtension).Some? ==> |r| == |name| - 4
  {
    ReplaceFirst(name, PdfExtension, "")
  }

  /** The name before capitalisation: ".pdf" removed and separators turned into spaces. */
  function Cleaned(name: string): (r: string)
    ensures |r| == |StripPdf(name)|
    ensures forall i :: 0 <= i < |r| ==> !IsSeparator(r[i])
  {
    SeparatorsToSpaces(StripPdf(name))
  }

  /** The course title derived from a file name. */
  function Title(name: string): (r: string)
    ensures |r| == |StripPdf(name)|
    ensures forall i :: 0 <= i < |r| ==> !IsSeparator(r[i])
  {
    var cleaned := Cleaned(name);
    var r := CapitalizeWords(cleaned);
    assert forall i :: 0 <= i < |r| ==> !IsSeparator(cleaned[i]);
    r
  }

  /** The templated description derived from a file name. */
  function Description(name: string): (r: string)
    ensures |r| == |DescriptionPrefix| + |StripPdf(name)| + |DescriptionSuffix|
    ensures r[..|DescriptionPrefix|] == DescriptionPrefix
    ensures r[|r| - |DescriptionSuffix|..] == DescriptionSuffix
  {
    DescriptionPrefix + LowerAll(Cleaned(name)) + DescriptionSuffix
  }

  /** `course-` followed by the decimal numeral of the position. */
  function CourseId(index: nat): (r: string)
    ensures |r| > |IdPrefix| && r[..|IdPrefix|] == IdPrefix
    ensures AllDigits(r[|IdPrefix|..]) && DigitsValue(r[|IdPrefix|..]) == index
  {
    DecimalValue(index);
    assert (IdPrefix + Decimal(index))[|IdPrefix|..] == Decimal(index);
    IdPrefix + Decimal(index)
  }

  /** The course built for the listing entry `name` at position `index`. */
  function ToCourse(name: string, index: nat, url: string -> string): (c: Course)
    ensures c.pdfUrl == Some(url(name))
    ensures ShowsMaterialLink(c) <==> url(name) != ""
    ensures |c.id| > |IdPrefix| && c.id[..|IdPrefix|] == IdPrefix
  {
    Course(CourseId(index), Title(name), Description(name), Some(url(name)))
  }

  /** The mapping of the listing to courses, one per entry, numbered by position. */
  function MapListing(names: seq<string>, url: string -> string): (r: seq<Course>)
    ensures |r| == |names|
    ensures forall i :: 0 <= i < |names| ==> r[i] == ToCourse(names[i], i, url)
  {
    seq(|names|, i requires 0 <= i < |names| => ToCourse(names[i], i, url))
  }

  /** The value `fetchCourses` hands to `setCourses`, on whichever of its four exits it takes. */
  function FetchResult(env: Env, client: Client, backend: Backend): (r: seq<Course>)
    ensures |r| > 0
  {
    if !IsConfigured(env) then SampleCourses
    else
      match List(client, backend, Bucket, "")
      case Rejected => SampleCourses
      case Resolved(data, error) =>
        if error.Some? then SampleCourses
        else
          var courseList := MapListing(data, name => PublicUrl(client, backend, Bucket, name));
          if |courseList| > 0 then courseList else SampleCourses
  }

  /**
   * Stated without `IndexOf`: with no ".pdf" anywhere the name is unchanged;
   * otherwise exactly the leftmost ".pdf" is cut out, wherever it stands.
   */
  lemma StripPdfRemovesLeftmost(name: string, k: nat)
    ensures (forall j: nat :: !OccursAt(name, PdfExtension, j)) ==> StripPdf(name) == name
    ensures OccursAt(name, PdfExtension, k) && (forall j: nat :: j < k ==> !OccursAt(name, PdfExtension, j)) ==>
              StripPdf(name) == name[..k] + name[k + 4..]
  {
    if OccursAt(name, PdfExtension, k) {
      var r := IndexOf(name, PdfExtension);
      assert r.Some?;
      if (forall j: nat :: j < k ==> !OccursAt(name, PdfExtension, j)) {
        assert r.value == k;
      }
    }
  }

  /** Only ".pdf" shortens the name; the other steps replace one character by one. */
  lemma TitleLength(name: string)
    ensures |Title(name)| == if exists k: nat :: OccursAt(name, PdfExtension, k) then |name| - 4 else |name|
  {
    match IndexOf(name, PdfExtension)
    case None =>
      assert !exists k: nat :: OccursAt(name, PdfExtension, k);
    case Some(k) =>
      assert OccursAt(name, PdfExtension, k);
  }

  /**
   * Position by position, the title is the name with ".pdf" cut out, each
   * separator a space, and a word-starting character upper-cased.
   */
  lemma TitleAt(name: string, i: nat)
    requires i < |StripPdf(name)|
    ensures i < |Title(name)| && i < |Cleaned(name)|
    ensures var c := StripPdf(name)[i];
            Title(name)[i] == if IsSeparator(c) then ' ' else if StartsWord(Cleaned(name), i) then Upper(c) else c
  {
  }

  /** Lower-casing undoes the capitalisation: the description is the lower-cased title in the template. */
  lemma DescriptionMatchesTitle(name: string)
    ensures Description(name) == DescriptionPrefix + LowerAll(Title(name)) + DescriptionSuffix
  {
    var cleaned := Cleaned(name);
    var a, b := LowerAll(Title(name)), LowerAll(cleaned);
    forall i | 0 <= i < |a|
      ensures a[i] == b[i]
    {
      LowerOfUpper(cleaned[i]);
    }
    assert a == b;
  }

  /** ".pdf" cannot start at a position that holds no dot. */
  lemma NoPdfBefore(name: string, k: nat)
    requires k <= |name|
    requires forall j :: 0 <= j < k ==> name[j] != '.'
    ensures forall j: nat :: j < k ==> !OccursAt(name, PdfExtension, j)
  {
    forall j: nat | j < k
      ensures !OccursAt(name, PdfExtension, j)
    {
      assert name[j + 0] != PdfExtension[0];
    }
  }

  /** The title and description of a name whose only dot starts its ".pdf". */
  lemma CleanedAt(name: string, k: nat)
    requires k + 4 == |name| && name[k..] == PdfExtension
    requires forall j :: 0 <= j < k ==> name[j] != '.'
    ensures StripPdf(name) == name[..k]
  {
    NoPdfBefore(name, k);
    StripPdfRemovesLeftmost(name, k);
  }

  // The examples below take the file name as a parameter fixed by `requires`,
  // so that the verifier does not unfold the ".pdf" search on a literal; the
  // steps on literals are evaluated in lemmas of their own.

  lemma IntroSeparators() ensures SeparatorsToSpaces("intro-to-x") == "intro to x" { }
  lemma IntroCapitalized() ensures CapitalizeWords("intro to x") == "Intro To X" { }
  lemma IntroLowered() ensures LowerAll("intro to x") == "intro to x" { }
  lemma DataScienceSeparators() ensures SeparatorsToSpaces("data_science") == "data science" { }
  lemma DataScienceCapitalized() ensures CapitalizeWords("data science") == "Data Science" { }
  lemma ReportSeparators() ensures SeparatorsToSpaces("report.pdf") == "report.pdf" { }
  lemma ReportCapitalized() ensures CapitalizeWords("report.pdf") == "Report.Pdf" { }

  /** The naming scheme on "intro-to-x.pdf": each hyphen-separated word is capitalised. */
  lemma ExampleIntro(name: string)
    requires name == "intro-to-x.pdf"
    ensures Title(name) == "Intro To X"
    ensures Description(name) == DescriptionPrefix + "intro to x" + DescriptionSuffix
  {
    CleanedAt(name, 10);
    assert StripPdf(name) == "intro-to-x";
    IntroSeparators();
    IntroCapitalized();
    IntroLowered();
  }

  /** The naming scheme on "data_science.pdf": the underscore separates words too. */
  lemma ExampleDataScience(name: string)
    requires name == "data_science.pdf"
    ensures Title(name) == "Data Science"
  {
    CleanedAt(name, 12);
    assert StripPdf(name) == "data_science";
    DataScienceSeparators();
    DataScienceCapitalized();
  }

  lemma ExampleReportStripped(name: string)
    requires name == "report.pdf.pdf"
    ensures StripPdf(name) == "report.pdf"
  {
    NoPdfBefore(name, 6);
    assert OccursAt(name, PdfExtension, 6);
    StripPdfRemovesLeftmost(name, 6);
    assert name[..6] + name[10..] == "report.pdf";
  }

  /** Only the first ".pdf" goes, and a word also starts after a dot. */
  lemma ExampleReport(name: string)
    requires name == "report.pdf.pdf"
    ensures Title(name) == "Report.Pdf"
  {
    ExampleReportStripped(name);
    ReportSeparators();
    ReportCapitalized();
  }

  /** `course-${index}` names one index only. */
  lemma CourseIdInjective(i: nat, j: nat)
    requires CourseId(i) == CourseId(j)
    ensures i == j
  {
    assert CourseId(i)[|IdPrefix|..] == Decimal(i);
    assert CourseId(j)[|IdPrefix|..] == Decimal(j);
    DecimalInjective(i, j);
  }

  /**
   * The mapped list keeps the listing's length and order, numbers the ids by
   * position (so no two coincide), and links each course to the public URL
   * of its original file name.
   */
  lemma MapListingShape(names: seq<string>, url: string -> string)
    ensures var r := MapListing(names, url);
            |r| == |names| &&
            (forall i :: 0 <= i < |r| ==>
               r[i].id == IdPrefix + Decimal(i) && r[i].name == Title(names[i]) &&
               r[i].description == Description(names[i]) && r[i].pdfUrl == Some(url(names[i]))) &&
            (forall i, j :: 0 <= i < j < |r| ==> r[i].id != r[j].id)
  {
    var r := MapListing(names, url);
    forall i, j | 0 <= i < j < |r|
      ensures r[i].id != r[j].id
    {
      assert DigitsValue(r[i].id[|IdPrefix|..]) == i;
    }
  }

  /** The sample list: six courses with ids "1" to "6", none linking to a material. */
  lemma SampleCoursesShape()
    ensures |SampleCourses| == 6
    ensures forall i :: 0 <= i < 6 ==> SampleCourses[i].id == Decimal(i + 1)
    ensures forall i :: 0 <= i < 6 ==> SampleCourses[i].pdfUrl == None && !ShowsMaterialLink(SampleCourses[i])
    ensures forall i, j :: 0 <= i < j < 6 ==> SampleCourses[i].id != SampleCourses[j].id
  {
  }

  /** Not configured, a rejected request, an error, or an empty listing: the page shows the samples. */
  lemma FetchFallsBack(env: Env, client: Client, backend: Backend)
    requires !IsConfigured(env) || List(client, backend, Bucket, "").Rejected? ||
             List(client, backend, Bucket, "").error.Some? || List(client, backend, Bucket, "").data == []
    ensures FetchResult(env, client, backend) == SampleCourses
  {
  }

  /** A successful, non-empty listing: the page shows exactly the mapped list. */
  lemma FetchMapsListing(env: Env, client: Client, backend: Backend)
    requires IsConfigured(env)
    requires List(client, backend, Bucket, "").Resolved? && List(client, backend, Bucket, "").error.None?
    requires List(client, backend, Bucket, "").data != []
    ensures FetchResult(env, client, backend) ==
              MapListing(List(client, backend, Bucket, "").data, name => PublicUrl(client, backend, Bucket, name))
  {
  }

  /** The page shows either the samples or a list holding none of them. */
  lemma FetchNeverMixes(env: Env, client: Client, backend: Backend)
    ensures var r := FetchResult(env, client, backend);
            r == SampleCourses || forall c :: c in r ==> c !in SampleCourses && c.pdfUrl.Some?
  {
    var r := FetchResult(env, client, backend);
    if r != SampleCourses {
      forall c | c in r
        ensures c !in SampleCourses && c.pdfUrl.Some?
      {
        var i :| 0 <= i < |r| && r[i] == c;
        assert |c.id| > |IdPrefix|;
        assert forall s :: s in SampleCourses ==> |s.id| == 1;
      }
    }
  }

  /** Through the substitute client the page always shows the samples. */
  lemma MockClientShowsSamples(env: Env, backend: Backend)
    ensures FetchResult(env, Mock, backend) == SampleCourses
  {
  }

  /**
   * Both values set but the URL does not parse (or the client cannot be
   * built): the page reports itself configured, lists through the substitute,
   * and so shows the samples.
   */
  lemma MisconfiguredUrlShowsSamples(env: Env, urlParses: string -> bool, createSucceeds: (string, string) -> bool,
                                     backend: Backend)
    requires IsConfigured(env)
    requires !urlParses(env.url.value) || !createSucceeds(env.url.value, env.anonKey.value)
    ensures FetchResult(env, ClientFor(env, urlParses, createSucceeds), backend) == SampleCourses
  {
    MockClientShowsSamples(env, backend);
  }

  /** The page component's state. */
  class Home {
    var courses: seq<Course>
    /** How many times `setCourses` has been called. */
    ghost var updates: nat

    /** The state starts as the empty list. */
    constructor ()
      ensures courses == [] && updates == 0
    {
      courses := [];
      updates := 0;
    }

    /**
     * `fetchCourses`: one storage listing through the exported client, then
     * exactly one `setCourses`.
     */
    method FetchCourses(env: Env, client: Client, backend: Backend)
      modifies this
      ensures courses == FetchResult(env, client, backend)
      ensures updates == old(updates) + 1
    {
      if !IsConfigured(env) {
        courses := SampleCourses;
        updates := updates + 1;
        return;
      }
      var response := List(client, backend, Bucket, "");
      if response.Rejected? {
        // the request threw: the catch branch
        courses := SampleCourses;
        updates := updates + 1;
        return;
      }
      if response.error.Some? {
        courses := SampleCourses;
        updates := updates + 1;
        return;
      }
      var courseList := MapListing(response.data, name => PublicUrl(client, backend, Bucket, name));
      courses := if |courseList| > 0 then courseList else SampleCourses;
      updates := updates + 1;
    }
  }
}
