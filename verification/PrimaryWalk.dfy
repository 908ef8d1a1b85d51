/** The walk over the packages of a primary.xml document: a loop over the decoder's tokens that keeps the package being
    read, the announced package count, and whether the next text is a checksum. */
module PrimaryWalk {
  import opened Wrappers

  // ----- decimal numbers, as written into and read from the header -----

  function Digit(d: nat): char
    requires d < 10
  {
    (d + '0' as int) as char
  }

  /** %d for a count. */
  function Decimal(n: nat): string {
    if n < 10 then [Digit(n)] else Decimal(n / 10) + [Digit(n % 10)]
  }

  function ParseDigits(s: string): Option<nat> {
    if s == "" then None
    else
      var c := s[|s| - 1];
      if !('0' <= c <= '9') then None
      else if |s| == 1 then Some(c as int - '0' as int)
      else match ParseDigits(s[..|s| - 1])
           case None => None
           case Some(front) => Some(10 * front + (c as int - '0' as int))
  }

  /** A decimal integer of 32 bits with an optional sign. */
  function ParseInt32(s: string): Option<int> {
    if s == "" then None
    else
      match ParseDigits(if s[0] == '-' || s[0] == '+' then s[1..] else s)
      case None => None
      case Some(n) =>
        var signed := if s[0] == '-' then 0 - n as int else n as int;
        if -0x8000_0000 <= signed < 0x8000_0000 then Some(signed) else None
  }

  lemma {:induction false} DigitsParse(n: nat)
    ensures ParseDigits(Decimal(n)) == Some(n) && '0' <= Decimal(n)[0] <= '9'
  {
    if n >= 10 {
      DigitsParse(n / 10);
      var s := Decimal(n);
      assert s[..|s| - 1] == Decimal(n / 10) && s[|s| - 1] == Digit(n % 10);
    }
  }

  /** The count a header is written with is read back exactly when it fits 32 bits. */
  lemma CountRoundTripIff(n: nat)
    ensures ParseInt32(Decimal(n)) == Some(n) <==> n < 0x8000_0000
    ensures ParseInt32(Decimal(n)).None? <==> n >= 0x8000_0000
  {
    DigitsParse(n);
  }

  // ----- the walk -----

  datatype Attr = Attr(name: string, value: string)

  /** `Start`, `End` and `Text` are what the walk looks at; `Skipped` are comments, directives and the like, and
      `Broken` is the decoder's error. */
  datatype Token = Start(name: string, attrs: seq<Attr>) | End(name: string) | Text(text: string) | Skipped | Broken

  datatype Package = Package(href: string, id: string)
  datatype Call = Call(pkg: Package, total: int)
  datatype Error = Malformed | ChecksumType(name: string) | BadCount | Refused

  datatype Walk = Walk(pkg: Package, pkgid: bool, total: int, calls: seq<Call>, error: Option<Error>)

  const START := Walk(Package("", ""), false, 0, [], None)

  /** The first type attribute that is not sha256. */
  function BadType(attrs: seq<Attr>): Option<string> {
    if attrs == [] then None
    else match BadType(attrs[..|attrs| - 1])
         case Some(name) => Some(name)
         case None =>
           var a := attrs[|attrs| - 1];
           if a.name == "type" && a.value != "sha256" then Some(a.value) else None
  }

  /** The last href attribute. */
  function Href(attrs: seq<Attr>, default: string): string {
    if attrs == [] then default
    else var a := attrs[|attrs| - 1]; if a.name == "href" then a.value else Href(attrs[..|attrs| - 1], default)
  }

  /** The last packages attribute; none of them may fail to parse. */
  function Count(attrs: seq<Attr>, default: int): Option<int> {
    if attrs == [] then Some(default)
    else
      var a := attrs[|attrs| - 1];
      match Count(attrs[..|attrs| - 1], default)
      case None => None
      case Some(n) => if a.name == "packages" then ParseInt32(a.value) else Some(n)
  }

  /** One token. `walkFn` answers, from the calls made so far, whether the last of them was accepted. */
  function Read(w: Walk, t: Token, walkFn: seq<Call> -> bool): Walk {
    if w.error.Some? then w
    else
      match t
      case Start(name, attrs) =>
        if name == "package" then w.(pkg := Package("", ""))
        else if name == "checksum" then
          match BadType(attrs) case Some(b) => w.(error := Some(ChecksumType(b))) case None => w.(pkgid := true)
        else if name == "location" then w.(pkg := w.pkg.(href := Href(attrs, w.pkg.href)))
        else if name == "metadata" then
          match Count(attrs, w.total) case None => w.(error := Some(BadCount)) case Some(n) => w.(total := n)
        else w
      case End(name) =>
        if name == "package" then
          var calls := w.calls + [Call(w.pkg, w.total)];
          w.(calls := calls, error := if walkFn(calls) then None else Some(Refused))
        else w
      case Text(text) => if w.pkgid then w.(pkg := w.pkg.(id := text), pkgid := false) else w
      case Skipped => w
      case Broken => w.(error := Some(Malformed))
  }

  function ReadAll(w: Walk, tokens: seq<Token>, walkFn: seq<Call> -> bool): Walk {
    if tokens == [] then w else Read(ReadAll(w, tokens[..|tokens| - 1], walkFn), tokens[|tokens| - 1], walkFn)
  }

  lemma {:induction false} Stays(w: Walk, tokens: seq<Token>, walkFn: seq<Call> -> bool)
    requires w.error.Some?
    ensures ReadAll(w, tokens, walkFn) == w
  {
    if tokens != [] { Stays(w, tokens[..|tokens| - 1], walkFn); }
  }

  lemma {:induction false} ReadConcat(w: Walk, a: seq<Token>, b: seq<Token>, walkFn: seq<Call> -> bool)
    ensures ReadAll(w, a + b, walkFn) == ReadAll(ReadAll(w, a, walkFn), b, walkFn)
    decreases |b|
  {
    if b == [] {
      assert a + b == a;
    } else {
      ReadConcat(w, a, b[..|b| - 1], walkFn);
      assert (a + b)[..|a + b| - 1] == a + b[..|b| - 1];
    }
  }

  lemma ReadOne(w: Walk, tokens: seq<Token>, t: Token, walkFn: seq<Call> -> bool)
    ensures ReadAll(w, tokens + [t], walkFn) == Read(ReadAll(w, tokens, walkFn), t, walkFn)
    ensures ReadAll(w, [t], walkFn) == Read(w, t, walkFn)
  {
    assert (tokens + [t])[..|tokens|] == tokens && [t][..0] == [];
  }

  method CheckType(attrs: seq<Attr>) returns (bad: Option<string>)
    ensures bad == BadType(attrs)
  {
    bad := None;
    for i := 0 to |attrs|
      invariant BadType(attrs[..i]).None?
    {
      assert attrs[..i + 1][..i] == attrs[..i];
      if attrs[i].name == "type" && attrs[i].value != "sha256" {
        BadTypeStays(attrs, i + 1);
        return Some(attrs[i].value);
      }
    }
    assert attrs[..|attrs|] == attrs;
  }

  lemma {:induction false} BadTypeStays(attrs: seq<Attr>, i: nat)
    requires i <= |attrs| && BadType(attrs[..i]).Some?
    ensures BadType(attrs) == BadType(attrs[..i])
    decreases |attrs| - i
  {
    if i == |attrs| {
      assert attrs[..i] == attrs;
    } else {
      assert attrs[..i + 1][..i] == attrs[..i];
      BadTypeStays(attrs, i + 1);
    }
  }

  lemma {:induction false} BadCountStays(attrs: seq<Attr>, i: nat, default: int)
    requires i <= |attrs| && Count(attrs[..i], default).None?
    ensures Count(attrs, default).None?
    decreases |attrs| - i
  {
    if i == |attrs| {
      assert attrs[..i] == attrs;
    } else {
      assert attrs[..i + 1][..i] == attrs[..i];
      BadCountStays(attrs, i + 1, default);
    }
  }

  method ReadCount(attrs: seq<Attr>, default: int) returns (count: Option<int>)
    ensures count == Count(attrs, default)
  {
    var total := default;
    for i := 0 to |attrs|
      invariant Count(attrs[..i], default) == Some(total)
    {
      assert attrs[..i + 1][..i] == attrs[..i];
      if attrs[i].name == "packages" {
        match ParseInt32(attrs[i].value) {
          case None =>
            BadCountStays(attrs, i + 1, default);
            return None;
          case Some(n) => total := n;
        }
      }
    }
    assert attrs[..|attrs|] == attrs;
    return Some(total);
  }

  method ReadHref(attrs: seq<Attr>, default: string) returns (href: string)
    ensures href == Href(attrs, default)
  {
    href := default;
    for i := 0 to |attrs|
      invariant href == Href(attrs[..i], default)
    {
      assert attrs[..i + 1][..i] == attrs[..i];
      if attrs[i].name == "href" { href := attrs[i].value; }
    }
    assert attrs[..|attrs|] == attrs;
  }

  /** The token loop. It returns the calls it made and the error it stopped at. */
  method WalkPrimaryPackages(tokens: seq<Token>, walkFn: seq<Call> -> bool)
      returns (calls: seq<Call>, error: Option<Error>)
    ensures calls == ReadAll(START, tokens, walkFn).calls && error == ReadAll(START, tokens, walkFn).error
  {
    var pkg, pkgid, total := Package("", ""), false, 0;
    calls, error := [], None;
    for i := 0 to |tokens|
      invariant error == None
      invariant ReadAll(START, tokens[..i], walkFn) == Walk(pkg, pkgid, total, calls, None)
    {
      assert tokens[..i + 1][..i] == tokens[..i];
      ghost var rest := tokens[i + 1..];
      assert tokens == tokens[..i + 1] + rest;
      ReadConcat(START, tokens[..i + 1], rest, walkFn);
      match tokens[i] {
        case Start(name, attrs) =>
          if name == "package" {
            pkg := Package("", "");
          } else if name == "checksum" {
            pkgid := true;
            var bad := CheckType(attrs);
            if bad.Some? {
              error := Some(ChecksumType(bad.value));
              Stays(ReadAll(START, tokens[..i + 1], walkFn), rest, walkFn);
              return;
            }
          } else if name == "location" {
            var href := ReadHref(attrs, pkg.href);
            pkg := pkg.(href := href);
          } else if name == "metadata" {
            var count := ReadCount(attrs, total);
            if count.None? {
              error := Some(BadCount);
              Stays(ReadAll(START, tokens[..i + 1], walkFn), rest, walkFn);
              return;
            }
            total := count.value;
          }
        case End(name) =>
          if name == "package" {
            calls := calls + [Call(pkg, total)];
            if !walkFn(calls) {
              error := Some(Refused);
              Stays(ReadAll(START, tokens[..i + 1], walkFn), rest, walkFn);
              return;
            }
          }
        case Text(text) =>
          if pkgid {
            pkg := pkg.(id := text);
            pkgid := !pkgid;
          }
        case Skipped =>
        case Broken =>
          error := Some(Malformed);
          Stays(ReadAll(START, tokens[..i + 1], walkFn), rest, walkFn);
          return;
      }
    }
    assert tokens[..|tokens|] == tokens;
  }

  // ----- documents -----

  /** Anything that is none of the walk's business. */
  predicate Noise(t: Token) {
    match t
    case Start(name, _) => name !in {"package", "checksum", "location", "metadata"}
    case End(name) => name != "package"
    case Text(_) => true
    case Skipped => true
    case Broken => false
  }

  predicate AllNoise(tokens: seq<Token>) { forall i :: 0 <= i < |tokens| ==> Noise(tokens[i]) }

  datatype Part = Filler(token: Token) | Checksum(attrs: seq<Attr>, id: string) | Location(attrs: seq<Attr>)

  /** A package element with what precedes it. */
  datatype Entry = Entry(gap: seq<Token>, attrs: seq<Attr>, parts: seq<Part>)

  datatype Document = Document(preamble: seq<Token>, header: seq<Attr>, entries: seq<Entry>, trailer: seq<Token>)

  /** An empty text makes no token. */
  function RenderPart(part: Part): seq<Token> {
    match part
    case Filler(t) => [t]
    case Checksum(attrs, id) => [Start("checksum", attrs)] + (if id == "" then [] else [Text(id)]) + [End("checksum")]
    case Location(attrs) => [Start("location", attrs), End("location")]
  }

  function RenderParts(parts: seq<Part>): seq<Token> {
    if parts == [] then [] else RenderParts(parts[..|parts| - 1]) + RenderPart(parts[|parts| - 1])
  }

  function RenderEntry(e: Entry): seq<Token> {
    e.gap + [Start("package", e.attrs)] + RenderParts(e.parts) + [End("package")]
  }

  function RenderEntries(entries: seq<Entry>): seq<Token> {
    if entries == [] then [] else RenderEntries(entries[..|entries| - 1]) + RenderEntry(entries[|entries| - 1])
  }

  function Render(doc: Document): seq<Token> {
    doc.preamble + [Start("metadata", doc.header)] + RenderEntries(doc.entries) + doc.trailer
  }

  /** The attribute is there, and wherever it is it has this value. */
  predicate AttrIs(attrs: seq<Attr>, name: string, value: string) {
    && (exists i :: 0 <= i < |attrs| && attrs[i].name == name)
    && forall i :: 0 <= i < |attrs| && attrs[i].name == name ==> attrs[i].value == value
  }

  predicate Sha256Only(attrs: seq<Attr>) {
    forall i :: 0 <= i < |attrs| && attrs[i].name == "type" ==> attrs[i].value == "sha256"
  }

  predicate PartOk(part: Part, pkg: Package) {
    match part
    case Filler(t) => Noise(t)
    case Checksum(attrs, id) => Sha256Only(attrs) && id == pkg.id && id != ""
    case Location(attrs) => AttrIs(attrs, "href", pkg.href)
  }

  /** The element describes `pkg`: it has a checksum and a location, anywhere among other things, and they are the
      package's. */
  predicate Describes(e: Entry, pkg: Package) {
    && AllNoise(e.gap)
    && (forall i :: 0 <= i < |e.parts| ==> PartOk(e.parts[i], pkg))
    && (exists i :: 0 <= i < |e.parts| && e.parts[i].Checksum?)
    && (exists i :: 0 <= i < |e.parts| && e.parts[i].Location?)
  }

  predicate AllDescribe(entries: seq<Entry>, pkgs: seq<Package>) {
    |entries| == |pkgs| && forall i :: 0 <= i < |pkgs| ==> Describes(entries[i], pkgs[i])
  }

  predicate Renders(doc: Document, pkgs: seq<Package>, n: nat) {
    && AllNoise(doc.preamble) && AllNoise(doc.trailer)
    && n < 0x8000_0000 && AttrIs(doc.header, "packages", Decimal(n))
    && AllDescribe(doc.entries, pkgs)
  }

  function Reports(pkgs: seq<Package>, n: int): seq<Call> {
    seq(|pkgs|, i requires 0 <= i < |pkgs| => Call(pkgs[i], n))
  }

  // ----- attributes -----

  /** A checksum is refused exactly when it has a type other than sha256; one without a type is taken. */
  lemma {:induction false} BadTypeIff(attrs: seq<Attr>)
    ensures BadType(attrs).None? <==> Sha256Only(attrs)
  {
    if attrs != [] {
      var front := attrs[..|attrs| - 1];
      BadTypeIff(front);
      assert Sha256Only(attrs) ==> Sha256Only(front) by {
        forall i | 0 <= i < |front| ensures front[i] == attrs[i] {}
      }
    }
  }

  lemma {:induction false} HrefFound(attrs: seq<Attr>, href: string, default: string)
    requires AttrIs(attrs, "href", href)
    ensures Href(attrs, default) == href
  {
    var front, last := attrs[..|attrs| - 1], attrs[|attrs| - 1];
    if last.name != "href" {
      var i :| 0 <= i < |attrs| && attrs[i].name == "href";
      assert front[i].name == "href";
      HrefFound(front, href, default);
    }
  }

  lemma {:induction false} CountOtherwise(attrs: seq<Attr>, default: int)
    requires forall i :: 0 <= i < |attrs| ==> attrs[i].name != "packages"
    ensures Count(attrs, default) == Some(default)
  {
    if attrs != [] { CountOtherwise(attrs[..|attrs| - 1], default); }
  }

  lemma {:induction false} CountFound(attrs: seq<Attr>, n: nat, default: int)
    requires AttrIs(attrs, "packages", Decimal(n)) && n < 0x8000_0000
    ensures Count(attrs, default) == Some(n)
  {
    CountRoundTripIff(n);
    var front, last := attrs[..|attrs| - 1], attrs[|attrs| - 1];
    if exists i :: 0 <= i < |front| && front[i].name == "packages" {
      CountFound(front, n, default);
    } else {
      CountOtherwise(front, default);
      assert last.name == "packages" by {
        var i :| 0 <= i < |attrs| && attrs[i].name == "packages";
      }
    }
  }

  /** The last href attribute wins; without one the value stays. */
  lemma {:induction false} HrefIsLast(attrs: seq<Attr>, default: string, i: nat)
    requires i < |attrs| ==> attrs[i].name == "href"
    requires forall j :: i < j < |attrs| || (i >= |attrs| && 0 <= j < |attrs|) ==> attrs[j].name != "href"
    ensures Href(attrs, default) == if i < |attrs| then attrs[i].value else default
  {
    if attrs != [] {
      var last := |attrs| - 1;
      if i != last {
        assert attrs[last].name != "href";
        HrefIsLast(attrs[..last], default, i);
      }
    }
  }

  /** The count is that of the last packages attribute if all of them parse, and an error exactly if one does not. */
  lemma {:induction false} CountMeans(attrs: seq<Attr>, default: int)
    ensures Count(attrs, default).None? <==>
            exists i :: 0 <= i < |attrs| && attrs[i].name == "packages" && ParseInt32(attrs[i].value).None?
    ensures forall i :: 0 <= i < |attrs| && attrs[i].name == "packages" && Count(attrs, default).Some?
                        && (forall j :: i < j < |attrs| ==> attrs[j].name != "packages") ==>
              Count(attrs, default) == ParseInt32(attrs[i].value)
  {
    if attrs != [] {
      var last := |attrs| - 1;
      CountMeans(attrs[..last], default);
      assert forall i :: 0 <= i < last ==> attrs[..last][i] == attrs[i];
    }
  }

  /** The type that is reported is the first one that is not sha256. */
  lemma {:induction false} BadTypeIsFirst(attrs: seq<Attr>, i: nat)
    requires i < |attrs| && attrs[i].name == "type" && attrs[i].value != "sha256" && Sha256Only(attrs[..i])
    ensures BadType(attrs) == Some(attrs[i].value)
  {
    BadTypeIff(attrs[..i]);
    assert attrs[..i + 1][..i] == attrs[..i];
    BadTypeStays(attrs, i + 1);
  }

  /** A number parses exactly if it is a non-empty string of digits. */
  lemma {:induction false} DigitsIff(s: string)
    ensures ParseDigits(s).Some? <==> s != "" && forall i :: 0 <= i < |s| ==> '0' <= s[i] <= '9'
  {
    if |s| > 1 {
      DigitsIff(s[..|s| - 1]);
      assert forall i :: 0 <= i < |s| - 1 ==> s[..|s| - 1][i] == s[i];
    }
  }

  lemma SignDropped(sign: char, n: nat)
    ensures var s := [sign] + Decimal(n); s != "" && s[0] == sign && ParseDigits(s[1..]) == Some(n)
  {
    DigitsParse(n);
    assert ([sign] + Decimal(n))[1..] == Decimal(n);
  }

  /** A sign may precede the digits; 32 bits hold one more negative number. */
  lemma SignedParse(n: nat)
    ensures ParseInt32(['-'] + Decimal(n)) == (if n <= 0x8000_0000 then Some(0 - n as int) else None)
    ensures ParseInt32(['+'] + Decimal(n)) == (if n < 0x8000_0000 then Some(n as int) else None)
  {
    SignDropped('-', n);
    SignDropped('+', n);
  }

  // ----- the walk reads what was rendered -----

  /** No checksum is awaited and nothing went wrong. */
  predicate Calm(w: Walk) { !w.pkgid && w.error.None? }

  lemma {:induction false} NoiseIsSkipped(w: Walk, tokens: seq<Token>, walkFn: seq<Call> -> bool)
    requires Calm(w) && AllNoise(tokens)
    ensures ReadAll(w, tokens, walkFn) == w
  {
    if tokens != [] { NoiseIsSkipped(w, tokens[..|tokens| - 1], walkFn); }
  }

  lemma ChecksumRead(w: Walk, attrs: seq<Attr>, id: string, walkFn: seq<Call> -> bool)
    requires Calm(w) && Sha256Only(attrs) && id != ""
    ensures ReadAll(w, RenderPart(Checksum(attrs, id)), walkFn) == w.(pkg := w.pkg.(id := id))
  {
    BadTypeIff(attrs);
    var a, b, c := Start("checksum", attrs), Text(id), End("checksum");
    assert RenderPart(Checksum(attrs, id)) == [a] + [b] + [c];
    ReadOne(w, [], a, walkFn);
    ReadOne(w, [a], b, walkFn);
    ReadOne(w, [a] + [b], c, walkFn);
  }

  lemma LocationRead(w: Walk, attrs: seq<Attr>, href: string, walkFn: seq<Call> -> bool)
    requires Calm(w) && AttrIs(attrs, "href", href)
    ensures ReadAll(w, RenderPart(Location(attrs)), walkFn) == w.(pkg := w.pkg.(href := href))
  {
    HrefFound(attrs, href, w.pkg.href);
    var a, b := Start("location", attrs), End("location");
    assert RenderPart(Location(attrs)) == [a] + [b];
    ReadOne(w, [], a, walkFn);
    ReadOne(w, [a], b, walkFn);
  }

  /** The package after one more part. */
  function WithPart(was: Package, part: Part, pkg: Package): Package {
    match part case Filler(_) => was case Checksum(_, id) => was.(id := id) case Location(_) => was.(href := pkg.href)
  }

  lemma PartRead(w: Walk, part: Part, pkg: Package, walkFn: seq<Call> -> bool)
    requires Calm(w) && PartOk(part, pkg)
    ensures ReadAll(w, RenderPart(part), walkFn) == w.(pkg := WithPart(w.pkg, part, pkg))
  {
    match part
    case Filler(t) => ReadOne(w, [], t, walkFn);
    case Checksum(attrs, id) => ChecksumRead(w, attrs, id, walkFn);
    case Location(attrs) => LocationRead(w, attrs, pkg.href, walkFn);
  }

  predicate HasChecksum(parts: seq<Part>) { exists i :: 0 <= i < |parts| && parts[i].Checksum? }

  predicate HasLocation(parts: seq<Part>) { exists i :: 0 <= i < |parts| && parts[i].Location? }

  /** The package after reading all parts. */
  function Filled(was: Package, parts: seq<Part>, pkg: Package): Package {
    Package(if HasLocation(parts) then pkg.href else was.href, if HasChecksum(parts) then pkg.id else was.id)
  }

  lemma FilledStep(was: Package, parts: seq<Part>, pkg: Package)
    requires parts != [] && PartOk(parts[|parts| - 1], pkg)
    ensures Filled(was, parts, pkg) == WithPart(Filled(was, parts[..|parts| - 1], pkg), parts[|parts| - 1], pkg)
  {
    var front, last := parts[..|parts| - 1], parts[|parts| - 1];
    assert forall i :: 0 <= i < |front| ==> front[i] == parts[i];
    assert HasLocation(parts) == (HasLocation(front) || last.Location?);
    assert HasChecksum(parts) == (HasChecksum(front) || last.Checksum?);
  }

  lemma {:induction false} PartsRead(w: Walk, parts: seq<Part>, pkg: Package, walkFn: seq<Call> -> bool)
    requires Calm(w) && forall i :: 0 <= i < |parts| ==> PartOk(parts[i], pkg)
    ensures ReadAll(w, RenderParts(parts), walkFn) == w.(pkg := Filled(w.pkg, parts, pkg))
  {
    if parts != [] {
      var front, last := parts[..|parts| - 1], parts[|parts| - 1];
      PartsRead(w, front, pkg, walkFn);
      PartRead(w.(pkg := Filled(w.pkg, front, pkg)), last, pkg, walkFn);
      ReadConcat(w, RenderParts(front), RenderPart(last), walkFn);
      FilledStep(w.pkg, parts, pkg);
    }
  }

  /** One package element is reported with its own checksum and location, and with an empty one where it has none,
      whatever came before it. */
  lemma EntryRead(w: Walk, e: Entry, pkg: Package, walkFn: seq<Call> -> bool)
    requires Calm(w) && AllNoise(e.gap) && forall i :: 0 <= i < |e.parts| ==> PartOk(e.parts[i], pkg)
    ensures var href, id := if HasLocation(e.parts) then pkg.href else "", if HasChecksum(e.parts) then pkg.id else "";
            var found := Package(href, id);
            var calls := w.calls + [Call(found, w.total)];
            ReadAll(w, RenderEntry(e), walkFn) ==
              Walk(found, false, w.total, calls, if walkFn(calls) then None else Some(Refused))
  {
    var front := e.gap + [Start("package", e.attrs)];
    NoiseIsSkipped(w, e.gap, walkFn);
    ReadOne(w, e.gap, Start("package", e.attrs), walkFn);
    ReadConcat(w, front, RenderParts(e.parts), walkFn);
    PartsRead(w.(pkg := Package("", "")), e.parts, pkg, walkFn);
    ReadOne(w, front + RenderParts(e.parts), End("package"), walkFn);
  }

  /** One more entry after `front`, which accounts for the earlier packages. */
  lemma OneMoreEntry(front: Walk, e: Entry, pkgs: seq<Package>, walkFn: seq<Call> -> bool)
    requires pkgs != [] && Calm(front) && front.calls == Reports(pkgs[..|pkgs| - 1], front.total)
    requires Describes(e, pkgs[|pkgs| - 1])
    ensures var out := ReadAll(front, RenderEntry(e), walkFn);
            && out.calls == Reports(pkgs, front.total) && out.total == front.total && !out.pkgid
            && out.error == if walkFn(Reports(pkgs, front.total)) then None else Some(Refused)
  {
    assert HasChecksum(e.parts) && HasLocation(e.parts);
    EntryRead(front, e, pkgs[|pkgs| - 1], walkFn);
    assert Reports(pkgs, front.total) == front.calls + [Call(pkgs[|pkgs| - 1], front.total)];
  }

  /** `walkFn` accepts the first `k` reports. */
  predicate Accepts(walkFn: seq<Call> -> bool, pkgs: seq<Package>, n: int, k: int) {
    forall j :: 0 < j <= k && j <= |pkgs| ==> walkFn(Reports(pkgs[..j], n))
  }

  lemma AcceptsFront(walkFn: seq<Call> -> bool, pkgs: seq<Package>, n: int, k: nat, m: nat)
    requires Accepts(walkFn, pkgs, n, k) && m <= |pkgs|
    ensures Accepts(walkFn, pkgs[..m], n, k)
  {
    forall j | 0 < j <= k && j <= m ensures walkFn(Reports(pkgs[..m][..j], n)) { assert pkgs[..m][..j] == pkgs[..j]; }
  }

  lemma DescribeFront(entries: seq<Entry>, pkgs: seq<Package>)
    requires AllDescribe(entries, pkgs) && pkgs != []
    ensures AllDescribe(entries[..|entries| - 1], pkgs[..|pkgs| - 1])
            && Describes(entries[|entries| - 1], pkgs[|pkgs| - 1])
  {
  }

  /** Reading entries of which all but perhaps the last are accepted. */
  lemma {:induction false} EntriesRead(w: Walk, entries: seq<Entry>, pkgs: seq<Package>, walkFn: seq<Call> -> bool)
    requires Calm(w) && w.calls == []
    requires AllDescribe(entries, pkgs)
    requires Accepts(walkFn, pkgs, w.total, |pkgs| - 1)
    ensures var out := ReadAll(w, RenderEntries(entries), walkFn);
            && out.calls == Reports(pkgs, w.total) && out.total == w.total && !out.pkgid
            && out.error == if pkgs == [] || walkFn(Reports(pkgs, w.total)) then None else Some(Refused)
  {
    if pkgs != [] {
      var last := |pkgs| - 1;
      var front := ReadAll(w, RenderEntries(entries[..last]), walkFn);
      AcceptsFront(walkFn, pkgs, w.total, last, last);
      DescribeFront(entries, pkgs);
      EntriesRead(w, entries[..last], pkgs[..last], walkFn);
      assert front.error.None? by { assert last > 0 ==> walkFn(Reports(pkgs[..last], w.total)); }
      OneMoreEntry(front, entries[last], pkgs, walkFn);
      ReadConcat(w, RenderEntries(entries[..last]), RenderEntry(entries[last]), walkFn);
    }
  }

  lemma StoppedStays(w: Walk, entries: seq<Entry>, walkFn: seq<Call> -> bool)
    requires entries != [] && ReadAll(w, RenderEntries(entries[..|entries| - 1]), walkFn).error.Some?
    ensures ReadAll(w, RenderEntries(entries), walkFn) == ReadAll(w, RenderEntries(entries[..|entries| - 1]), walkFn)
  {
    var front, last := RenderEntries(entries[..|entries| - 1]), RenderEntry(entries[|entries| - 1]);
    ReadConcat(w, front, last, walkFn);
    Stays(ReadAll(w, front, walkFn), last, walkFn);
  }

  /** The walk made the first k reports and stopped there. */
  predicate StoppedAt(out: Walk, pkgs: seq<Package>, n: int, k: nat) {
    k <= |pkgs| && out.calls == Reports(pkgs[..k], n) && out.error == Some(Refused)
  }

  lemma StoppedAtMore(out: Walk, pkgs: seq<Package>, n: int, k: nat)
    requires pkgs != [] && StoppedAt(out, pkgs[..|pkgs| - 1], n, k)
    ensures StoppedAt(out, pkgs, n, k)
  {
    assert pkgs[..|pkgs| - 1][..k] == pkgs[..k];
  }

  /** Entries after a refused one are not reached. */
  lemma {:induction false} EntriesStop(
      w: Walk, entries: seq<Entry>, pkgs: seq<Package>, walkFn: seq<Call> -> bool, k: nat)
    requires Calm(w) && w.calls == [] && 0 < k <= |pkgs|
    requires AllDescribe(entries, pkgs)
    requires Accepts(walkFn, pkgs, w.total, k - 1) && !walkFn(Reports(pkgs[..k], w.total))
    ensures StoppedAt(ReadAll(w, RenderEntries(entries), walkFn), pkgs, w.total, k)
    decreases |pkgs|
  {
    if |pkgs| == k {
      assert pkgs[..k] == pkgs;
      EntriesRead(w, entries, pkgs, walkFn);
    } else {
      var front := pkgs[..|pkgs| - 1];
      AcceptsFront(walkFn, pkgs, w.total, k - 1, |front|);
      DescribeFront(entries, pkgs);
      assert front[..k] == pkgs[..k];
      EntriesStop(w, entries[..|entries| - 1], front, walkFn, k);
      StoppedStays(w, entries, walkFn);
      StoppedAtMore(ReadAll(w, RenderEntries(entries), walkFn), pkgs, w.total, k);
    }
  }

  lemma HeaderRead(doc: Document, pkgs: seq<Package>, n: nat, walkFn: seq<Call> -> bool)
    requires Renders(doc, pkgs, n)
    ensures ReadAll(START, doc.preamble + [Start("metadata", doc.header)], walkFn) == START.(total := n)
  {
    var a := Start("metadata", doc.header);
    NoiseIsSkipped(START, doc.preamble, walkFn);
    CountFound(doc.header, n, 0);
    ReadConcat(START, doc.preamble, [a], walkFn);
    assert [a][..0] == [];
  }

  /** The walk of a document is the walk of its entries. */
  lemma DocumentRead(doc: Document, pkgs: seq<Package>, n: nat, walkFn: seq<Call> -> bool)
    requires Renders(doc, pkgs, n)
    ensures var out := ReadAll(START.(total := n), RenderEntries(doc.entries), walkFn);
            !out.pkgid || out.error.Some? ==> ReadAll(START, Render(doc), walkFn) == out
  {
    var front := doc.preamble + [Start("metadata", doc.header)];
    var out := ReadAll(START.(total := n), RenderEntries(doc.entries), walkFn);
    HeaderRead(doc, pkgs, n, walkFn);
    ReadConcat(START, front, RenderEntries(doc.entries), walkFn);
    ReadConcat(START, front + RenderEntries(doc.entries), doc.trailer, walkFn);
    if out.error.Some? { Stays(out, doc.trailer, walkFn); }
    else if !out.pkgid { NoiseIsSkipped(out, doc.trailer, walkFn); }
  }

  /** Walk inverts rendering: whatever stands between and inside the package elements, the walk reports exactly the
      packages, in order, each with the header's count, and succeeds. */
  lemma WalkInverts(doc: Document, pkgs: seq<Package>, n: nat, walkFn: seq<Call> -> bool)
    requires Renders(doc, pkgs, n) && Accepts(walkFn, pkgs, n, |pkgs|)
    ensures var out := ReadAll(START, Render(doc), walkFn); out.calls == Reports(pkgs, n) && out.error == None
  {
    assert pkgs[..|pkgs|] == pkgs;
    EntriesRead(START.(total := n), doc.entries, pkgs, walkFn);
    DocumentRead(doc, pkgs, n, walkFn);
  }

  /** The first refusal ends the walk: nothing after it is reported, whatever follows. */
  lemma WalkStopsAtRefusal(doc: Document, pkgs: seq<Package>, n: nat, walkFn: seq<Call> -> bool, k: nat)
    requires Renders(doc, pkgs, n) && 0 < k <= |pkgs|
    requires Accepts(walkFn, pkgs, n, k - 1) && !walkFn(Reports(pkgs[..k], n))
    ensures var out := ReadAll(START, Render(doc), walkFn);
            out.calls == Reports(pkgs[..k], n) && out.error == Some(Refused)
  {
    EntriesStop(START.(total := n), doc.entries, pkgs, walkFn, k);
    DocumentRead(doc, pkgs, n, walkFn);
  }

  /** Without a header the packages are reported all the same, with a count of zero. */
  lemma HeaderlessCount(entries: seq<Entry>, pkgs: seq<Package>, walkFn: seq<Call> -> bool)
    requires AllDescribe(entries, pkgs) && Accepts(walkFn, pkgs, 0, |pkgs|)
    ensures var out := ReadAll(START, RenderEntries(entries), walkFn);
            out.calls == Reports(pkgs, 0) && out.error == None
  {
    assert pkgs[..|pkgs|] == pkgs;
    EntriesRead(START, entries, pkgs, walkFn);
  }

  // ----- errors in a document -----

  /** What ends the walk, and with which error: the decoder's, a checksum of another type, a count that does not
      parse. */
  ghost predicate EndsWith(t: Token, error: Error) {
    match t
    case Broken => error == Malformed
    case Start(name, attrs) =>
      || (&& name == "checksum"
          && exists i: nat :: i < |attrs| && attrs[i].name == "type" && attrs[i].value != "sha256"
                              && Sha256Only(attrs[..i]) && error == ChecksumType(attrs[i].value))
      || (&& name == "metadata" && error == BadCount
          && exists i :: 0 <= i < |attrs| && attrs[i].name == "packages" && ParseInt32(attrs[i].value).None?)
    case _ => false
  }

  /** The first such token ends the walk with its error and the calls made before it, whatever follows. */
  lemma FirstErrorEnds(before: seq<Token>, t: Token, after: seq<Token>, error: Error, walkFn: seq<Call> -> bool)
    requires ReadAll(START, before, walkFn).error.None? && EndsWith(t, error)
    ensures var out := ReadAll(START, before + [t] + after, walkFn);
            out.calls == ReadAll(START, before, walkFn).calls && out.error == Some(error)
  {
    var w := ReadAll(START, before, walkFn);
    ReadOne(START, before, t, walkFn);
    if t.Start? && t.name == "checksum" {
      var i: nat :| i < |t.attrs| && t.attrs[i].name == "type" && t.attrs[i].value != "sha256"
                    && Sha256Only(t.attrs[..i]) && error == ChecksumType(t.attrs[i].value);
      BadTypeIsFirst(t.attrs, i);
    } else if t.Start? {
      CountMeans(t.attrs, w.total);
    }
    ReadConcat(START, before + [t], after, walkFn);
    Stays(ReadAll(START, before + [t], walkFn), after, walkFn);
  }

  /** So in a document: the packages before the error are reported, in order, and nothing else. */
  lemma DocumentCutOff(
      doc: Document, pkgs: seq<Package>, n: nat, t: Token, after: seq<Token>, error: Error, walkFn: seq<Call> -> bool)
    requires Renders(doc, pkgs, n) && Accepts(walkFn, pkgs, n, |pkgs|) && EndsWith(t, error)
    ensures var out := ReadAll(START, Render(doc) + [t] + after, walkFn);
            out.calls == Reports(pkgs, n) && out.error == Some(error)
  {
    WalkInverts(doc, pkgs, n, walkFn);
    FirstErrorEnds(Render(doc), t, after, error, walkFn);
  }

  // ----- an empty checksum -----

  /** The first text among the tokens. */
  function FirstText(tokens: seq<Token>): string {
    if tokens == [] then "" else if tokens[0].Text? then tokens[0].text else FirstText(tokens[1..])
  }

  lemma {:induction false} AwaitingReadsFirst(w: Walk, tokens: seq<Token>, walkFn: seq<Call> -> bool)
    requires w.pkgid && w.error.None? && w.pkg.id == "" && AllNoise(tokens)
    ensures ReadAll(w, tokens, walkFn).pkg == w.pkg.(id := FirstText(tokens)) && ReadAll(w, tokens, walkFn).error.None?
    ensures ReadAll(w, tokens, walkFn).calls == w.calls && ReadAll(w, tokens, walkFn).total == w.total
  {
    if tokens != [] {
      var t, rest := tokens[0], tokens[1..];
      assert tokens == [t] + rest && [t][..0] == [];
      ReadConcat(w, [t], rest, walkFn);
      var next := ReadAll(w, [t], walkFn);
      if t.Text? { NoiseIsSkipped(next, rest, walkFn); } else { AwaitingReadsFirst(next, rest, walkFn); }
    }
  }

  /** What is reported for a checksum element, whatever its text. */
  lemma ChecksumThen(w: Walk, attrs: seq<Attr>, id: string, after: seq<Token>, walkFn: seq<Call> -> bool)
    requires Calm(w) && w.pkg == Package("", "") && AllNoise(after) && Sha256Only(attrs)
    ensures var out := ReadAll(ReadAll(w, RenderPart(Checksum(attrs, id)), walkFn), after, walkFn);
            && out.error.None? && out.calls == w.calls && out.total == w.total
            && out.pkg == Package("", if id != "" then id else FirstText(after))
  {
    if id != "" {
      ChecksumRead(w, attrs, id, walkFn);
      NoiseIsSkipped(w.(pkg := w.pkg.(id := id)), after, walkFn);
    } else {
      BadTypeIff(attrs);
      var a, b := Start("checksum", attrs), End("checksum");
      assert RenderPart(Checksum(attrs, id)) == [a] + [b];
      ReadOne(w, [], a, walkFn);
      ReadOne(w, [a], b, walkFn);
      AwaitingReadsFirst(w.(pkgid := true), after, walkFn);
    }
  }

  /** A package with one checksum, in other elements and text, is reported with the checksum's text exactly when that
      text is not empty or no other text follows it in the package: an empty checksum takes the next text for its
      own. */
  lemma ChecksumReadIff(
      w: Walk, before: seq<Token>, attrs: seq<Attr>, id: string, after: seq<Token>, walkFn: seq<Call> -> bool)
    requires Calm(w) && w.pkg == Package("", "") && AllNoise(before) && AllNoise(after) && Sha256Only(attrs)
    ensures var out := ReadAll(w, before + RenderPart(Checksum(attrs, id)) + after + [End("package")], walkFn);
            && out.calls == w.calls + [Call(Package("", if id != "" then id else FirstText(after)), w.total)]
            && (out.calls[|w.calls|].pkg.id == id <==> id != "" || FirstText(after) == "")
  {
    var part := RenderPart(Checksum(attrs, id));
    NoiseIsSkipped(w, before, walkFn);
    ReadConcat(w, before, part, walkFn);
    ReadConcat(w, before + part, after, walkFn);
    ChecksumThen(w, attrs, id, after, walkFn);
    ReadOne(w, before + part + after, End("package"), walkFn);
  }
}
