/** Scans taken from the repository's own call sites and documentation,
    replayed against the contracts of the scanner, with the outcome of each
    proved. */
module Examples {
  import opened Wrappers
  import opened Matching
  import opened SimpleRegex

  /** A pattern whose first character differs from the target's at `i` does
      not occur at `i`. */
  lemma NotAtFirstChar(t: seq<char>, p: seq<char>, i: nat)
    requires p != [] && i < |t| && t[i] != p[0]
    ensures !PatternAt(t, p, i)
  {
  }

  /** In "example.com/abc" the first ".com" starts at 7. */
  lemma ExampleDotCom()
    ensures FirstOccurrence("example.com/abc", ".com", 0) == Some(7)
    ensures "example.com/abc"[0..7] == "example"
  {
    var t, p := "example.com/abc", ".com";
    NotAtFirstChar(t, p, 0);
    NotAtFirstChar(t, p, 1);
    NotAtFirstChar(t, p, 2);
    NotAtFirstChar(t, p, 3);
    NotAtFirstChar(t, p, 4);
    NotAtFirstChar(t, p, 5);
    NotAtFirstChar(t, p, 6);
    assert PatternAt(t, p, 7);
  }

  /** The example in the documentation of `until`: on "example.com/abc" the
      cursor stops at the "." of ".com", having skipped over "example". */
  method UntilStopsBeforePattern() returns (idx: nat, lastMatch: Option<seq<char>>, error: bool)
    ensures idx == 7 && lastMatch == Some("example") && !error
  {
    var r := new SimpleRegex("example.com/abc");
    ExampleDotCom();
    r.Until(".com");
    idx, lastMatch, error := r.idx, r.lastMatch, r.error;
  }

  const Https := "https://example.com:3000/test/index.php"

  /** The literal steps of the example script match where they stand. */
  lemma HttpsLiterals()
    ensures PatternAt(Https, "http", 0) && PatternAt(Https, "s", 4) && PatternAt(Https, "://", 5)
  {
  }

  /** The chain of the repository's example script, on
      "https://example.com:3000/test/index.php": `then("http")` bound as
      "Protocol", an optional "s", then "://" bound as "domainName". */
  method ProtocolScan() returns (matches: map<string, Option<seq<char>>>, error: bool)
    ensures matches == map["Protocol" := Some("http"), "domainName" := Some("://")]
    ensures !error
  {
    var r := new SimpleRegex(Https);
    HttpsLiterals();
    r.Then("http");
    r.BindVar("Protocol");
    r.Maybe("s");
    r.Then("://");
    r.BindVar("domainName");
    matches, error := r.matches, r.error;
  }

  const Url := "ftp://example.com:3000/test/"

  /** On the test script's URL the first candidate "http" does not occur at
      the start, so `oneOf("http", "ftp")` takes "ftp". */
  lemma UrlProtocol()
    ensures FirstMatching(Url, ["http", "ftp"], 0) == Some(1)
  {
    NotAtFirstChar(Url, "http", 0);
    assert PatternAt(Url, "ftp", 0);
    FirstMatchingIsFirst(Url, ["http", "ftp"], 0, 1);
  }

  /** The text between "ftp://" and ".com" in the test script's URL. */
  lemma UrlDomainText()
    ensures Url[6..13] == "example"
  {
    assert Url == "ftp://" + "example" + ".com:3000/test/";
  }

  /** After "ftp://" the first ".com" of the test script's URL starts at 13. */
  lemma UrlDomain()
    ensures FirstOccurrence(Url, ".com", 6) == Some(13)
  {
    UrlLiterals();
    DomainSearch(Url);
  }

  /** The search of UrlDomain, on a target that is not a literal so that
      each step is taken explicitly. */
  lemma DomainSearch(t: seq<char>)
    requires t == Url && PatternAt(t, ".com", 13)
    ensures FirstOccurrence(t, ".com", 6) == Some(13)
  {
    var p := ".com";
    NotAtFirstChar(t, p, 6);
    NotAtFirstChar(t, p, 7);
    NotAtFirstChar(t, p, 8);
    NotAtFirstChar(t, p, 9);
    NotAtFirstChar(t, p, 10);
    NotAtFirstChar(t, p, 11);
    NotAtFirstChar(t, p, 12);
  }

  /** The literal steps of the test script's URL chain match where they stand. */
  lemma UrlLiterals()
    ensures PatternAt(Url, "://", 3) && PatternAt(Url, ".com", 13) && PatternAt(Url, ":", 17)
  {
  }

  /** The commented-out URL chain of the test script, without its
      `replaceWith` calls and what follows `then(":")`: `oneOf("http", "ftp")`
      bound as "protocol", "://", up to ".com", then ".com" and ":". The last
      match right after `until(".com")` is the domain it skipped over. */
  method UrlScan() returns (matches: map<string, Option<seq<char>>>, domain: Option<seq<char>>,
                            idx: nat, error: bool)
    ensures matches == map["protocol" := Some("ftp")] && domain == Some("example")
    ensures idx == 18 && !error
  {
    var r := new SimpleRegex(Url);
    UrlProtocol();
    UrlDomain();
    UrlDomainText();
    UrlLiterals();
    r.OneOf(["http", "ftp"]);
    r.BindVar("protocol");
    r.Then("://");
    r.Until(".com");
    domain := r.lastMatch;
    r.Then(".com");
    r.Then(":");
    matches, idx, error := r.matches, r.idx, r.error;
  }

  /** A strict match that fails raises the error flag, which a later
      successful match does not clear; a capture taken before anything
      matched holds no value. */
  method ErrorIsSticky() returns (matches: map<string, Option<seq<char>>>, idx: nat, error: bool)
    ensures matches == map["x" := None] && idx == 1 && error
  {
    var r := new SimpleRegex("xyz");
    NotAtFirstChar(r.target, "http", 0);
    r.Then("http");
    r.BindVar("x");
    assert PatternAt(r.target, "x", 0);
    r.Then("x");
    matches, idx, error := r.matches, r.idx, r.error;
  }
}
