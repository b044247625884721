/** vCard 3.0 (RFC 2426) serialisation of a contact and the bulk export of
    every contact as one `.vcf` payload. A card is a fixed sequence of
    property lines, each ended by `\n`: BEGIN, VERSION, FN (section 3.1.1),
    N (3.1.2), TEL (3.3.1), EMAIL (3.3.2), ORG (3.5.5), TITLE (3.5.1),
    NOTE (3.6.2), PHOTO as a URI reference (3.1.4), UID (3.6.7) and END;
    FN and the seven properties after N appear only when their value is
    present. */
module ExportAllVcf {
  import opened Js
  import opened ContactStore
  import Actions

  // ---------------------------------------------------------------------
  // NOTE escaping

  /** The NOTE value: `,` then `;` then newline are replaced by `\,`, `\;`
      and the two characters `\n`. Backslash and CR are left alone. */
  function EscapeNote(s: string): (r: string)
    ensures '\n' !in r
  {
    ReplaceAll(ReplaceAll(ReplaceAll(s, ',', "\\,"), ';', "\\;"), '\n', "\\n")
  }

  /** The escape of one character, for a reference definition that rewrites
      each character of the input exactly once. */
  function EscapeChar(c: char): string {
    if c == ',' then "\\," else if c == ';' then "\\;" else if c == '\n' then "\\n" else [c]
  }

  function EscapeEach(s: string): string {
    if s == [] then [] else EscapeChar(s[0]) + EscapeEach(s[1..])
  }

  lemma EscapeNoteChar(c: char)
    ensures EscapeNote([c]) == EscapeChar(c)
  {
    if c == ',' {
      assert ReplaceAll([c], ',', "\\,") == "\\,";
      assert ReplaceAll("\\,", ';', "\\;") == "\\,";
      assert ReplaceAll("\\,", '\n', "\\n") == "\\,";
    } else if c == ';' {
      assert ReplaceAll([c], ',', "\\,") == [c];
      assert ReplaceAll([c], ';', "\\;") == "\\;";
      assert ReplaceAll("\\;", '\n', "\\n") == "\\;";
    } else if c == '\n' {
      assert ReplaceAll([c], ',', "\\,") == [c];
      assert ReplaceAll([c], ';', "\\;") == [c];
      assert ReplaceAll([c], '\n', "\\n") == "\\n";
    } else {
      assert ReplaceAll([c], ',', "\\,") == [c];
      assert ReplaceAll([c], ';', "\\;") == [c];
      assert ReplaceAll([c], '\n', "\\n") == [c];
    }
  }

  lemma EscapeNoteAppend(a: string, b: string)
    ensures EscapeNote(a + b) == EscapeNote(a) + EscapeNote(b)
  {
    ReplaceAllAppend(a, b, ',', "\\,");
    var a1, b1 := ReplaceAll(a, ',', "\\,"), ReplaceAll(b, ',', "\\,");
    ReplaceAllAppend(a1, b1, ';', "\\;");
    var a2, b2 := ReplaceAll(a1, ';', "\\;"), ReplaceAll(b1, ';', "\\;");
    ReplaceAllAppend(a2, b2, '\n', "\\n");
  }

  /** The three chained replacements act like one pass that rewrites every
      character once: no backslash one of them introduces, and no character
      after it, is touched by a later one. */
  lemma {:induction false} EscapeNoteIsSinglePass(s: string)
    ensures EscapeNote(s) == EscapeEach(s)
  {
    if s != [] {
      assert s == [s[0]] + s[1..];
      EscapeNoteAppend([s[0]], s[1..]);
      EscapeNoteChar(s[0]);
      EscapeNoteIsSinglePass(s[1..]);
    }
  }

  lemma {:induction false} EscapeEachLength(s: string)
    ensures |EscapeEach(s)| == |s| + Count(s, ',') + Count(s, ';') + Count(s, '\n')
  {
    if s != [] {
      EscapeEachLength(s[1..]);
    }
  }

  /** Escaping adds exactly one character per comma, semicolon and newline. */
  lemma EscapeNoteLength(s: string)
    ensures |EscapeNote(s)| == |s| + Count(s, ',') + Count(s, ';') + Count(s, '\n')
  {
    EscapeNoteIsSinglePass(s);
    EscapeEachLength(s);
  }

  lemma EscapeEachCons(x: char, s: string)
    ensures EscapeEach([x] + s) == EscapeChar(x) + EscapeEach(s)
  {
    assert ([x] + s)[0] == x && ([x] + s)[1..] == s;
  }

  lemma EscapeEachExample()
    ensures EscapeEach("a,b;c\nd") == "a\\,b\\;c\\nd"
  {
    var s6 := ['d'];
    var s5 := ['\n'] + s6;
    var s4 := ['c'] + s5;
    var s3 := [';'] + s4;
    var s2 := ['b'] + s3;
    var s1 := [','] + s2;
    var s0 := ['a'] + s1;
    assert s0 == "a,b;c\nd";
    EscapeEachCons('a', s1);
    EscapeEachCons(',', s2);
    EscapeEachCons('b', s3);
    EscapeEachCons(';', s4);
    EscapeEachCons('c', s5);
    EscapeEachCons('\n', s6);
    EscapeEachCons('d', []);
    assert EscapeEach(s0) == "a" + ("\\," + ("b" + ("\\;" + ("c" + ("\\n" + ("d" + ""))))));
  }

  /** The comma, the semicolon and the newline of `a,b;c` newline `d` are
      each escaped once: `a\,b\;c\nd`. */
  lemma EscapeNoteExample()
    ensures EscapeNote("a,b;c\nd") == "a\\,b\\;c\\nd"
  {
    EscapeEachExample();
    EscapeNoteIsSinglePass("a,b;c\nd");
  }

  /** Escaping loses information: a real newline and the two characters
      backslash, `n` give the same NOTE text, because backslash itself is
      not escaped. */
  lemma EscapeNoteNotInjective()
    ensures "\n" != "\\n" && EscapeNote("\n") == EscapeNote("\\n")
  {
    EscapeNoteChar('\n');
    EscapeNoteIsSinglePass("\\n");
    assert EscapeEach("\\n") == "\\" + EscapeEach("n");
  }

  // ---------------------------------------------------------------------
  // the card

  /** The formatted name: the first name, a space and the last name (or
      nothing), without white space at either end. */
  function FullName(c: Contact): string {
    Trim(c.firstName + " " + OrEmpty(c.lastName))
  }

  /** The content line of the structured name. */
  function NLine(c: Contact): string {
    Line(c, Name)
  }

  /** The properties a card may hold between its `BEGIN:VCARD` and
      `END:VCARD` delimiters. */
  datatype Property = Version | FormattedName | Name | Tel | Email | Org | Title | Note | Photo | Uid

  /** The order in which the properties are written. */
  const Properties: seq<Property> := [Version, FormattedName, Name, Tel, Email, Org, Title, Note, Photo, Uid]

  const BeginLine := "BEGIN:VCARD"
  const EndLine := "END:VCARD"

  function NameOf(p: Property): string {
    match p
    case Version => "VERSION" case FormattedName => "FN" case Name => "N" case Tel => "TEL"
    case Email => "EMAIL" case Org => "ORG" case Title => "TITLE" case Note => "NOTE"
    case Photo => "PHOTO" case Uid => "UID"
  }

  /** The position of a property in `Properties`. */
  function Rank(p: Property): nat {
    match p
    case Version => 0 case FormattedName => 1 case Name => 2 case Tel => 3 case Email => 4
    case Org => 5 case Title => 6 case Note => 7 case Photo => 8 case Uid => 9
  }

  /** Whether the card of `c` holds property `p`. */
  predicate Present(c: Contact, p: Property) {
    match p
    case Version => true
    case FormattedName => FullName(c) != ""
    case Name => true
    case Tel => Truthy(c.phoneNumber)
    case Email => Truthy(c.email)
    case Org => Truthy(c.company)
    case Title => Truthy(c.jobTitle)
    case Note => Truthy(c.notes)
    case Photo => Truthy(c.profileImageUrl)
    case Uid => Truthy(c.uid)
  }

  /** What a content line of property `p` starts with: its name and the
      `:` before the value, or for PHOTO its name, the `;VALUE=URI`
      parameter and `:`. */
  function Label(p: Property): string {
    NameOf(p) + Separator(p)
  }

  function Separator(p: Property): string {
    if p == Photo then ";VALUE=URI:" else ":"
  }

  /** The value written for property `p` in the card of `c`. */
  function Value(c: Contact, p: Property): string {
    match p
    case Version => "3.0"
    case FormattedName => FullName(c)
    case Name => OrEmpty(c.lastName) + ";" + c.firstName + ";;;"
    case Tel => OrEmpty(c.phoneNumber)
    case Email => OrEmpty(c.email)
    case Org => OrEmpty(c.company)
    case Title => OrEmpty(c.jobTitle)
    case Note => EscapeNote(OrEmpty(c.notes))
    case Photo => OrEmpty(c.profileImageUrl)
    case Uid => OrEmpty(c.uid)
  }

  /** The content line of property `p` with value `v`. */
  function LineOf(p: Property, v: string): string {
    Label(p) + v
  }

  /** The content line of property `p` in the card of `c`. */
  function Line(c: Contact, p: Property): string {
    LineOf(p, Value(c, p))
  }

  /** The lines of the properties of `ps` that the card of `c` holds. */
  function LinesOf(c: Contact, ps: seq<Property>): seq<string> {
    if ps == [] then [] else (if Present(c, ps[0]) then [Line(c, ps[0])] else []) + LinesOf(c, ps[1..])
  }

  /** The properties of `ps` that the card of `c` holds. */
  function PropsOf(c: Contact, ps: seq<Property>): seq<Property> {
    if ps == [] then [] else (if Present(c, ps[0]) then [ps[0]] else []) + PropsOf(c, ps[1..])
  }

  /** The content lines of the card of `c`, without their line ends: one
      per written property between the two delimiters. When a field written
      unescaped holds a line end, the card's text has more lines than these;
      `VcardTextLines` states when they are the same. */
  function VcardLines(c: Contact): seq<string> {
    [BeginLine] + LinesOf(c, Properties) + [EndLine]
  }

  /** The properties the card of `c` holds, in order. */
  function CardProperties(c: Contact): seq<Property> {
    PropsOf(c, Properties)
  }

  /** Every line followed by `\n`. */
  function Render(lines: seq<string>): string {
    if lines == [] then "" else lines[0] + "\n" + Render(lines[1..])
  }

  /** The text of the card of `c`. */
  function Vcard(c: Contact): string {
    Render(VcardLines(c))
  }

  /** The property name of a content line: the text before the first `:`
      or `;`. */
  function PropertyName(line: string): string {
    if line == [] || line[0] == ':' || line[0] == ';' then [] else [line[0]] + PropertyName(line[1..])
  }

  function PropertyNames(lines: seq<string>): seq<string> {
    if lines == [] then [] else [PropertyName(lines[0])] + PropertyNames(lines[1..])
  }

  function NamesOf(ps: seq<Property>): seq<string> {
    if ps == [] then [] else [NameOf(ps[0])] + NamesOf(ps[1..])
  }

  // ---------------------------------------------------------------------
  // generateVcard

  /** What the card of `c` gets for property `p`: its line and a line end
      when it holds `p`, nothing otherwise. */
  function Piece(c: Contact, p: Property): string {
    if Present(c, p) then Line(c, p) + "\n" else ""
  }

  /** `generateVcard`: the card is built by appending to a string one line
      at a time, each guarded line as the line or as nothing. The text it
      returns is the rendering of the card's lines. */
  method GenerateVcard(c: Contact) returns (vcard: string)
    ensures vcard == Vcard(c)
  {
    vcard := "BEGIN:VCARD\n";
    vcard := vcard + "VERSION:3.0\n";

    var fullName := Trim(c.firstName + " " + OrEmpty(c.lastName));
    vcard := vcard + (if fullName != "" then "FN:" + fullName + "\n" else "");

    vcard := vcard + ("N:" + OrEmpty(c.lastName) + ";" + c.firstName + ";;;\n");

    vcard := vcard + (if Truthy(c.phoneNumber) then "TEL:" + c.phoneNumber.value + "\n" else "");
    vcard := vcard + (if Truthy(c.email) then "EMAIL:" + c.email.value + "\n" else "");
    vcard := vcard + (if Truthy(c.company) then "ORG:" + c.company.value + "\n" else "");
    vcard := vcard + (if Truthy(c.jobTitle) then "TITLE:" + c.jobTitle.value + "\n" else "");
    vcard := vcard + (if Truthy(c.notes) then "NOTE:" + EscapeNote(c.notes.value) + "\n" else "");
    vcard := vcard + (if Truthy(c.profileImageUrl) then "PHOTO;VALUE=URI:" + c.profileImageUrl.value + "\n" else "");
    vcard := vcard + (if Truthy(c.uid) then "UID:" + c.uid.value + "\n" else "");

    vcard := vcard + "END:VCARD\n";
    GeneratedText(c);
  }

  lemma GeneratedText(c: Contact)
    ensures Vcard(c) ==
      "BEGIN:VCARD\n" + "VERSION:3.0\n"
      + (if FullName(c) != "" then "FN:" + FullName(c) + "\n" else "")
      + ("N:" + OrEmpty(c.lastName) + ";" + c.firstName + ";;;\n")
      + (if Truthy(c.phoneNumber) then "TEL:" + c.phoneNumber.value + "\n" else "")
      + (if Truthy(c.email) then "EMAIL:" + c.email.value + "\n" else "")
      + (if Truthy(c.company) then "ORG:" + c.company.value + "\n" else "")
      + (if Truthy(c.jobTitle) then "TITLE:" + c.jobTitle.value + "\n" else "")
      + (if Truthy(c.notes) then "NOTE:" + EscapeNote(c.notes.value) + "\n" else "")
      + (if Truthy(c.profileImageUrl) then "PHOTO;VALUE=URI:" + c.profileImageUrl.value + "\n" else "")
      + (if Truthy(c.uid) then "UID:" + c.uid.value + "\n" else "")
      + "END:VCARD\n"
  {
    VcardPieces(c);
    PieceVersion(c); PieceFormattedName(c); PieceName(c); PieceTel(c); PieceEmail(c);
    PieceOrg(c); PieceTitle(c); PieceNote(c); PiecePhoto(c); PieceUid(c);
  }

  lemma PieceVersion(c: Contact) ensures Piece(c, Version) == "VERSION:3.0\n" { assert Label(Version) == "VERSION:"; }
  lemma PieceFormattedName(c: Contact)
    ensures Piece(c, FormattedName) == if FullName(c) != "" then "FN:" + FullName(c) + "\n" else "" { assert Label(FormattedName) == "FN:"; }
  lemma PieceName(c: Contact)
    ensures Piece(c, Name) == "N:" + OrEmpty(c.lastName) + ";" + c.firstName + ";;;\n" { assert Label(Name) == "N:"; }
  lemma PieceTel(c: Contact)
    ensures Piece(c, Tel) == if Truthy(c.phoneNumber) then "TEL:" + c.phoneNumber.value + "\n" else "" { assert Label(Tel) == "TEL:"; }
  lemma PieceEmail(c: Contact)
    ensures Piece(c, Email) == if Truthy(c.email) then "EMAIL:" + c.email.value + "\n" else "" { assert Label(Email) == "EMAIL:"; }
  lemma PieceOrg(c: Contact)
    ensures Piece(c, Org) == if Truthy(c.company) then "ORG:" + c.company.value + "\n" else "" { assert Label(Org) == "ORG:"; }
  lemma PieceTitle(c: Contact)
    ensures Piece(c, Title) == if Truthy(c.jobTitle) then "TITLE:" + c.jobTitle.value + "\n" else "" { assert Label(Title) == "TITLE:"; }
  lemma PieceNote(c: Contact)
    ensures Piece(c, Note) == if Truthy(c.notes) then "NOTE:" + EscapeNote(c.notes.value) + "\n" else "" { assert Label(Note) == "NOTE:"; }
  lemma PiecePhoto(c: Contact)
    ensures Piece(c, Photo) ==
      if Truthy(c.profileImageUrl) then "PHOTO;VALUE=URI:" + c.profileImageUrl.value + "\n" else "" { assert Label(Photo) == "PHOTO;VALUE=URI:"; }
  lemma PieceUid(c: Contact)
    ensures Piece(c, Uid) == if Truthy(c.uid) then "UID:" + c.uid.value + "\n" else "" { assert Label(Uid) == "UID:"; }

  /** The text of a card is its pieces in the fixed order between the two
      delimiter lines. */
  lemma VcardPieces(c: Contact)
    ensures Vcard(c) ==
      "BEGIN:VCARD\n" + Piece(c, Version) + Piece(c, FormattedName) + Piece(c, Name)
      + Piece(c, Tel) + Piece(c, Email) + Piece(c, Org) + Piece(c, Title) + Piece(c, Note)
      + Piece(c, Photo) + Piece(c, Uid) + "END:VCARD\n"
  {
    VcardBody(c);
    var last := [Org] + ([Title] + ([Note] + ([Photo] + ([Uid] + []))));
    PropertiesNested();
    RenderFive(c, Version, FormattedName, Name, Tel, Email, last);
    RenderFive(c, Org, Title, Note, Photo, Uid, []);
    Regroup("BEGIN:VCARD\n", Piece(c, Version), Piece(c, FormattedName), Piece(c, Name),
      Piece(c, Tel), Piece(c, Email), Piece(c, Org), Piece(c, Title), Piece(c, Note),
      Piece(c, Photo), Piece(c, Uid), "END:VCARD\n");
  }

  lemma PropertiesNested()
    ensures Properties == [Version] + ([FormattedName] + ([Name] + ([Tel] + ([Email]
      + ([Org] + ([Title] + ([Note] + ([Photo] + ([Uid] + [])))))))))
  {
  }

  lemma Regroup(s0: string, s1: string, s2: string, s3: string, s4: string, s5: string,
                s6: string, s7: string, s8: string, s9: string, s10: string, s11: string)
    ensures s0 + s1 + s2 + s3 + s4 + s5 + s6 + s7 + s8 + s9 + s10 + s11
      == s0 + (s1 + (s2 + (s3 + (s4 + (s5 + (s6 + (s7 + (s8 + (s9 + (s10 + "")))))))))) + s11
  {
  }

  lemma VcardBody(c: Contact)
    ensures Vcard(c) == "BEGIN:VCARD\n" + Render(LinesOf(c, Properties)) + "END:VCARD\n"
  {
    RenderAppend([BeginLine] + LinesOf(c, Properties), [EndLine]);
    RenderAppend([BeginLine], LinesOf(c, Properties));
  }

  lemma RenderFive(c: Contact, p1: Property, p2: Property, p3: Property, p4: Property, p5: Property,
                   ps: seq<Property>)
    ensures Render(LinesOf(c, [p1] + ([p2] + ([p3] + ([p4] + ([p5] + ps))))))
      == Piece(c, p1) + (Piece(c, p2) + (Piece(c, p3) + (Piece(c, p4) + (Piece(c, p5) + Render(LinesOf(c, ps))))))
  {
    RenderCons(c, p1, [p2] + ([p3] + ([p4] + ([p5] + ps))));
    RenderCons(c, p2, [p3] + ([p4] + ([p5] + ps)));
    RenderCons(c, p3, [p4] + ([p5] + ps));
    RenderCons(c, p4, [p5] + ps);
    RenderCons(c, p5, ps);
  }

  lemma RenderCons(c: Contact, p: Property, ps: seq<Property>)
    ensures Render(LinesOf(c, [p] + ps)) == Piece(c, p) + Render(LinesOf(c, ps))
  {
    assert ([p] + ps)[0] == p && ([p] + ps)[1..] == ps;
    RenderAppend(if Present(c, p) then [Line(c, p)] else [], LinesOf(c, ps));
  }

  lemma {:induction false} RenderAppend(a: seq<string>, b: seq<string>)
    ensures Render(a + b) == Render(a) + Render(b)
  {
    if a == [] {
      assert a + b == b;
    } else {
      assert (a + b)[1..] == a[1..] + b;
      RenderAppend(a[1..], b);
    }
  }

  // ---------------------------------------------------------------------
  // what a card contains

  lemma {:induction false} PropertyNameOf(name: string, rest: string)
    requires ':' !in name && ';' !in name
    requires rest != [] && (rest[0] == ':' || rest[0] == ';')
    ensures PropertyName(name + rest) == name
  {
    if name == [] {
      assert name + rest == rest;
    } else {
      assert (name + rest)[1..] == name[1..] + rest;
      PropertyNameOf(name[1..], rest);
    }
  }

  /** Property names are made of capital letters. */
  lemma NameLetters(p: Property)
    ensures forall k :: 0 <= k < |NameOf(p)| ==> 'A' <= NameOf(p)[k] <= 'Z'
  {
  }

  /** The property name of a content line is the name of its property,
      whatever the value. */
  lemma LineName(p: Property, v: string)
    ensures PropertyName(LineOf(p, v)) == NameOf(p)
  {
    NameLetters(p);
    var rest := Separator(p) + v;
    assert LineOf(p, v) == NameOf(p) + rest;
    PropertyNameOf(NameOf(p), rest);
  }

  lemma NameOfInjective(p: Property, q: Property)
    ensures NameOf(p) == NameOf(q) ==> p == q
  {
    if NameOf(p) == NameOf(q) {
      assert |NameOf(p)| == |NameOf(q)| && NameOf(p)[0] == NameOf(q)[0];
    }
  }

  lemma BeginLineName()
    ensures PropertyName(BeginLine) == "BEGIN"
  {
    PropertyNameOf("BEGIN", ":VCARD");
    assert "BEGIN" + ":VCARD" == BeginLine;
  }

  lemma EndLineName()
    ensures PropertyName(EndLine) == "END"
  {
    PropertyNameOf("END", ":VCARD");
    assert "END" + ":VCARD" == EndLine;
  }

  /** The delimiters' names are no property's name. */
  lemma NameNotDelimiter(p: Property)
    ensures NameOf(p) != "BEGIN" && NameOf(p) != "END"
  {
    assert NameOf(p)[0] != 'B';
  }

  /** `Properties` lists every property once, at its rank. */
  lemma PropertiesRanked()
    ensures |Properties| == 10
    ensures forall k :: 0 <= k < |Properties| ==> Rank(Properties[k]) == k
  {
  }

  lemma InProperties(p: Property)
    ensures p in Properties
  {
    assert Properties[Rank(p)] == p;
  }

  lemma {:induction false} LinesOfMembers(c: Contact, ps: seq<Property>, l: string)
    ensures l in LinesOf(c, ps) <==> exists p :: p in ps && Present(c, p) && Line(c, p) == l
  {
    if ps != [] {
      LinesOfMembers(c, ps[1..], l);
      assert ps == [ps[0]] + ps[1..];
    }
  }

  lemma {:induction false} PropsOfMembers(c: Contact, ps: seq<Property>, p: Property)
    ensures p in PropsOf(c, ps) <==> p in ps && Present(c, p)
  {
    if ps != [] {
      PropsOfMembers(c, ps[1..], p);
      assert ps == [ps[0]] + ps[1..];
    }
  }

  /** A line of a card named after property `p` is the line of `p`, and
      the card holds `p`. */
  lemma LineNamedAfter(c: Contact, p: Property, l: string)
    requires l in VcardLines(c) && PropertyName(l) == NameOf(p)
    ensures Present(c, p) && l == Line(c, p)
  {
    BeginLineName();
    EndLineName();
    NameNotDelimiter(p);
    LinesOfMembers(c, Properties, l);
    var q :| q in Properties && Present(c, q) && Line(c, q) == l;
    LineName(q, Value(c, q));
    NameOfInjective(p, q);
  }

  /** A card holds a property exactly when `Present` says so: VERSION and N
      always, FN iff the trimmed full name is non-empty, each of the other
      seven iff its field is truthy. */
  lemma PropertyPresence(c: Contact, p: Property)
    ensures p in CardProperties(c) <==> Present(c, p)
  {
    InProperties(p);
    PropsOfMembers(c, Properties, p);
  }

  /** The line of every property the card holds is one of its lines. */
  lemma PresentLine(c: Contact, p: Property)
    requires Present(c, p)
    ensures Line(c, p) in VcardLines(c)
  {
    InProperties(p);
    LinesOfMembers(c, Properties, Line(c, p));
  }

  /** The FN line is written iff the trimmed full name is non-empty. */
  lemma FormattedNameLine(c: Contact)
    ensures ("FN:" + FullName(c)) in VcardLines(c) <==> FullName(c) != ""
  {
    var fn := "FN:" + FullName(c);
    assert Line(c, FormattedName) == fn;
    if fn in VcardLines(c) {
      LineName(FormattedName, FullName(c));
      LineNamedAfter(c, FormattedName, fn);
    }
    if FullName(c) != "" {
      PresentLine(c, FormattedName);
    }
  }

  /** Every line named FN is `FN:` followed by the trimmed full name. */
  lemma FormattedNameLines(c: Contact, l: string)
    requires l in VcardLines(c) && PropertyName(l) == "FN"
    ensures l == "FN:" + FullName(c)
  {
    LineNamedAfter(c, FormattedName, l);
    FormattedNameText(c);
  }

  lemma FormattedNameText(c: Contact)
    ensures Line(c, FormattedName) == "FN:" + FullName(c)
  {
    assert Label(FormattedName) == "FN:";
  }

  /** The N line `N:<last>;<first>;;;` is always written. */
  lemma NameLine(c: Contact)
    ensures NLine(c) == "N:" + OrEmpty(c.lastName) + ";" + c.firstName + ";;;"
    ensures NLine(c) in VcardLines(c)
  {
    NLineText(c);
    PresentLine(c, Name);
  }

  lemma NLineText(c: Contact)
    ensures NLine(c) == "N:" + OrEmpty(c.lastName) + ";" + c.firstName + ";;;"
  {
    assert Label(Name) == "N:";
  }

  /** With no last name the N line is `N:;<first>;;;`. */
  lemma NLineWithoutLastName(c: Contact)
    requires !Truthy(c.lastName)
    ensures NLine(c) == "N:;" + c.firstName + ";;;"
    ensures NLine(c) in VcardLines(c)
  {
    NameLine(c);
  }

  lemma {:induction false} PropertyNamesAppend(a: seq<string>, b: seq<string>)
    ensures PropertyNames(a + b) == PropertyNames(a) + PropertyNames(b)
  {
    if a == [] {
      assert a + b == b;
    } else {
      assert (a + b)[1..] == a[1..] + b;
      PropertyNamesAppend(a[1..], b);
    }
  }

  lemma {:induction false} NamesOfAppend(a: seq<Property>, b: seq<Property>)
    ensures NamesOf(a + b) == NamesOf(a) + NamesOf(b)
  {
    if a == [] {
      assert a + b == b;
    } else {
      assert (a + b)[1..] == a[1..] + b;
      NamesOfAppend(a[1..], b);
    }
  }

  lemma {:induction false} NamesOfLines(c: Contact, ps: seq<Property>)
    ensures PropertyNames(LinesOf(c, ps)) == NamesOf(PropsOf(c, ps))
  {
    if ps != [] {
      NamesOfLines(c, ps[1..]);
      LineName(ps[0], Value(c, ps[0]));
      PropertyNamesAppend(if Present(c, ps[0]) then [Line(c, ps[0])] else [], LinesOf(c, ps[1..]));
      NamesOfAppend(if Present(c, ps[0]) then [ps[0]] else [], PropsOf(c, ps[1..]));
    }
  }

  /** The property names written on the lines of a card are BEGIN, the
      names of the card's properties in the same order, and END. */
  lemma CardPropertyNames(c: Contact)
    ensures PropertyNames(VcardLines(c)) == ["BEGIN"] + NamesOf(CardProperties(c)) + ["END"]
  {
    NamesOfLines(c, Properties);
    BeginLineName();
    EndLineName();
    PropertyNamesAppend([BeginLine] + LinesOf(c, Properties), [EndLine]);
    PropertyNamesAppend([BeginLine], LinesOf(c, Properties));
  }

  predicate Ascending(ps: seq<Property>) {
    forall i, j :: 0 <= i < j < |ps| ==> Rank(ps[i]) < Rank(ps[j])
  }

  /** Keeping some properties of an ascending sequence keeps it ascending. */
  lemma {:induction false} PropsOfAscending(c: Contact, ps: seq<Property>)
    requires Ascending(ps)
    ensures Ascending(PropsOf(c, ps))
  {
    if ps != [] {
      var tail := ps[1..];
      assert Ascending(tail) by {
        forall i, j | 0 <= i < j < |tail| ensures Rank(tail[i]) < Rank(tail[j]) {
          assert tail[i] == ps[i + 1] && tail[j] == ps[j + 1];
        }
      }
      PropsOfAscending(c, tail);
      var q := PropsOf(c, tail);
      if Present(c, ps[0]) {
        forall j | 0 <= j < |q| ensures Rank(ps[0]) < Rank(q[j]) {
          PropsOfMembers(c, tail, q[j]);
          var k :| 0 <= k < |tail| && tail[k] == q[j];
          assert tail[k] == ps[k + 1];
        }
        assert PropsOf(c, ps) == [ps[0]] + q;
      }
    }
  }

  lemma {:induction false} NamesOfIndex(ps: seq<Property>)
    ensures |NamesOf(ps)| == |ps|
    ensures forall k :: 0 <= k < |ps| ==> NamesOf(ps)[k] == NameOf(ps[k])
  {
    if ps != [] {
      NamesOfIndex(ps[1..]);
    }
  }

  /** The properties of a card come in the fixed order VERSION, FN, N, TEL,
      EMAIL, ORG, TITLE, NOTE, PHOTO, UID, so each at most once, and so do
      the property names on its lines. */
  lemma PropertiesInFixedOrder(c: Contact)
    ensures Ascending(CardProperties(c))
    ensures forall i, j :: 0 <= i < j < |NamesOf(CardProperties(c))| ==>
              NamesOf(CardProperties(c))[i] != NamesOf(CardProperties(c))[j]
  {
    PropertiesRanked();
    PropsOfAscending(c, Properties);
    var ps := CardProperties(c);
    NamesOfIndex(ps);
    forall i, j | 0 <= i < j < |ps| ensures NameOf(ps[i]) != NameOf(ps[j]) {
      NameOfInjective(ps[i], ps[j]);
    }
  }

  /** VERSION is the first property and N the second after it. */
  lemma PropertiesStart()
    ensures Properties == [Version] + Properties[1..]
    ensures |Properties[1..]| > 1 && Properties[1..][1] == Name
  {
  }

  /** The lines after BEGIN:VCARD start with VERSION:3.0, and at least one
      more line, the N line, follows it. */
  lemma VersionFirst(c: Contact)
    ensures LinesOf(c, Properties) == ["VERSION:3.0"] + LinesOf(c, Properties[1..])
    ensures |LinesOf(c, Properties[1..])| > 0
  {
    var rest := Properties[1..];
    PropertiesStart();
    assert Line(c, Version) == "VERSION:3.0";
    assert Name in rest;
    LinesOfMembers(c, rest, Line(c, Name));
  }

  /** BEGIN:VCARD, then VERSION:3.0, then the other lines, then END:VCARD;
      VERSION and N are always there, so a card has at least four lines. */
  lemma VcardLineFrame(c: Contact)
    ensures |VcardLines(c)| >= 4
    ensures VcardLines(c)[0] == BeginLine && VcardLines(c)[1] == "VERSION:3.0"
    ensures VcardLines(c)[|VcardLines(c)| - 1] == EndLine
  {
    VersionFirst(c);
  }

  /** As text a card starts with `BEGIN:VCARD\nVERSION:3.0\n` and ends with
      `END:VCARD\n`. */
  lemma VcardTextFrame(c: Contact)
    ensures "BEGIN:VCARD\nVERSION:3.0\n" <= Vcard(c)
    ensures |Vcard(c)| >= 10 && Vcard(c)[|Vcard(c)| - 10..] == "END:VCARD\n"
  {
    VersionText(c);
    HeadText();
    Framed(Vcard(c), "BEGIN:VCARD\n", "VERSION:3.0\n", Render(LinesOf(c, Properties[1..])), "END:VCARD\n");
  }

  lemma HeadText()
    ensures "BEGIN:VCARD\n" + "VERSION:3.0\n" == "BEGIN:VCARD\nVERSION:3.0\n"
  {
  }

  lemma VersionText(c: Contact)
    ensures Vcard(c) == "BEGIN:VCARD\n" + ("VERSION:3.0\n" + Render(LinesOf(c, Properties[1..]))) + "END:VCARD\n"
  {
    PropertiesStart();
    VcardBody(c);
    RenderCons(c, Version, Properties[1..]);
    PieceVersion(c);
  }

  lemma Framed(s: string, a: string, b: string, m: string, z: string)
    requires s == a + (b + m) + z
    ensures a + b <= s
    ensures |s| >= |z| && s[|s| - |z|..] == z
  {
  }

  // ---------------------------------------------------------------------
  // line ends

  /** No field written unescaped holds a line end. (NOTE is escaped, so it
      may.) */
  predicate NoRawNewline(c: Contact) {
    '\n' !in c.firstName && '\n' !in OrEmpty(c.lastName) && '\n' !in OrEmpty(c.phoneNumber)
    && '\n' !in OrEmpty(c.email) && '\n' !in OrEmpty(c.company) && '\n' !in OrEmpty(c.jobTitle)
    && '\n' !in OrEmpty(c.profileImageUrl) && '\n' !in OrEmpty(c.uid)
  }

  /** No contact of the list holds a newline in a field printed raw. */
  predicate NoRawNewlines(cs: seq<Contact>) {
    forall c :: c in cs ==> NoRawNewline(c)
  }

  lemma FullNameWithoutNewline(c: Contact)
    requires '\n' !in c.firstName && '\n' !in OrEmpty(c.lastName)
    ensures '\n' !in FullName(c)
  {
    TrimKeeps(c.firstName + " " + OrEmpty(c.lastName), '\n');
  }

  lemma LineWithoutNewline(c: Contact, p: Property)
    requires NoRawNewline(c)
    ensures '\n' !in Line(c, p)
  {
    LabelWithoutNewline(p);
    ValueWithoutNewline(c, p);
  }

  lemma LabelWithoutNewline(p: Property)
    ensures '\n' !in Label(p)
  {
    NameLetters(p);
  }

  lemma ValueWithoutNewline(c: Contact, p: Property)
    requires NoRawNewline(c)
    ensures '\n' !in Value(c, p)
  {
    match p
    case FormattedName => FullNameWithoutNewline(c);
    case Name =>
      var v := OrEmpty(c.lastName) + ";" + c.firstName + ";;;";
      assert forall k :: 0 <= k < |v| ==> v[k] != '\n';
    case _ =>
  }

  /** Then no line of the card holds a line end, so the card's text has
      exactly one line end per line. */
  lemma VcardLinesWithoutNewline(c: Contact)
    requires NoRawNewline(c)
    ensures forall l :: l in VcardLines(c) ==> '\n' !in l
  {
    forall l | l in LinesOf(c, Properties) ensures '\n' !in l {
      ContentLineWithoutNewline(c, l);
    }
  }

  lemma ContentLineWithoutNewline(c: Contact, l: string)
    requires NoRawNewline(c) && l in LinesOf(c, Properties)
    ensures '\n' !in l
  {
    LinesOfMembers(c, Properties, l);
    var p :| p in Properties && Present(c, p) && Line(c, p) == l;
    LineWithoutNewline(c, p);
  }

  // ---------------------------------------------------------------------
  // GET /export-all-vcf

  /** The outcome of the bulk export: a `.vcf` body with its headers, or
      the 404 "nothing to export" answer. */
  datatype ExportResponse = Ok(body: string, headers: seq<(string, string)>) | NotFound(error: string)

  const NoContacts := "No contacts found to export"

  /** The headers of the download: a vCard media type in UTF-8, saved as
      `all_contacts.vcf`. */
  const DownloadHeaders: seq<(string, string)> := [
    ("Content-Type", "text/vcard; charset=utf-8"),
    ("Content-Disposition", "attachment; filename=\"all_contacts.vcf\"")]

  function Vcards(cs: seq<Contact>): seq<string> {
    if cs == [] then [] else [Vcard(cs[0])] + Vcards(cs[1..])
  }

  /** The aggregation of `GET`: an empty list is "not found"; otherwise the
      cards of the contacts, in list order, joined with `\n`. */
  function ExportAll(cs: seq<Contact>): (r: ExportResponse)
    ensures r.NotFound? <==> cs == []
    ensures r.NotFound? ==> r.error == NoContacts
    ensures r.Ok? ==> r.headers == DownloadHeaders
  {
    if cs == [] then NotFound(NoContacts) else Ok(Join(Vcards(cs), "\n"), DownloadHeaders)
  }

  /** `GET`: exports every contact `getContacts` lists. A failing database
      lists nothing, so the answer is "not found"; with the database up it
      is "not found" exactly when the table is empty. */
  function Get(table: Table, dbUp: bool): (r: ExportResponse)
    ensures r.NotFound? <==> !dbUp || table == []
    ensures r.NotFound? ==> r.error == NoContacts
    ensures r.Ok? ==> r.headers == DownloadHeaders
  {
    Actions.NoQueryListsEverything(table, None);
    ExportAll(Actions.GetContacts(table, None, dbUp))
  }

  /** One card per contact, the k-th being the card of the k-th contact. */
  lemma {:induction false} VcardsInOrder(cs: seq<Contact>)
    ensures |Vcards(cs)| == |cs|
    ensures forall k :: 0 <= k < |cs| ==> Vcards(cs)[k] == Vcard(cs[k])
  {
    if cs != [] {
      VcardsInOrder(cs[1..]);
    }
  }

  /** The body for one contact is its card; for more, the first card, a
      `\n`, and the body for the others. */
  lemma BulkBody(cs: seq<Contact>)
    requires cs != []
    ensures |cs| == 1 ==> ExportAll(cs).body == Vcard(cs[0])
    ensures |cs| > 1 ==> ExportAll(cs).body == Vcard(cs[0]) + "\n" + ExportAll(cs[1..]).body
  {
    if |cs| > 1 {
      JoinCons(Vcard(cs[0]), Vcards(cs[1..]), "\n");
    } else {
      assert Vcards(cs) == [Vcard(cs[0])];
    }
  }

  /** The lines of every card in list order, each card followed by one
      empty line. */
  function AllLines(cs: seq<Contact>): seq<string> {
    if cs == [] then [] else VcardLines(cs[0]) + [""] + AllLines(cs[1..])
  }

  lemma {:induction false} SplitRender(lines: seq<string>)
    requires forall l :: l in lines ==> '\n' !in l
    ensures Split(Render(lines), '\n') == lines + [""]
  {
    if lines != [] {
      SplitRender(lines[1..]);
      SplitAppend(lines[0], Render(lines[1..]), '\n');
      assert lines[0] + "\n" + Render(lines[1..]) == lines[0] + ['\n'] + Render(lines[1..]);
      SplitWithoutSeparator(lines[0], '\n');
      assert lines == [lines[0]] + lines[1..];
    }
  }

  /** Read as lines (`split('\n')`), the text of a card whose fields written
      unescaped hold no line end is its content lines, then the empty text
      after the last line end. */
  lemma VcardTextLines(c: Contact)
    requires NoRawNewline(c)
    ensures Split(Vcard(c), '\n') == VcardLines(c) + [""]
  {
    VcardLinesWithoutNewline(c);
    SplitRender(VcardLines(c));
  }

  /** Read as lines (`split('\n')`), the bulk body is each contact's card in
      list order, each followed by one blank line. */
  lemma {:induction false} BulkLines(cs: seq<Contact>)
    requires cs != [] && NoRawNewlines(cs)
    ensures Split(Join(Vcards(cs), "\n"), '\n') == AllLines(cs)
  {
    assert cs[0] in cs;
    VcardLinesWithoutNewline(cs[0]);
    SplitRender(VcardLines(cs[0]));
    if |cs| == 1 {
      assert Vcards(cs) == [Vcard(cs[0])];
      assert AllLines(cs) == VcardLines(cs[0]) + [""];
    } else {
      assert forall c :: c in cs[1..] ==> c in cs;
      assert NoRawNewlines(cs[1..]);
      BulkLines(cs[1..]);
      var rest := Vcards(cs[1..]);
      assert rest != [];
      JoinCons(Vcard(cs[0]), rest, "\n");
      SplitAppend(Vcard(cs[0]), Join(rest, "\n"), '\n');
      assert Vcard(cs[0]) + "\n" + Join(rest, "\n") == Vcard(cs[0]) + ['\n'] + Join(rest, "\n");
    }
  }

  /** The card delimiter lines of a list of lines, in order. */
  function Delimiters(lines: seq<string>): seq<string> {
    if lines == [] then []
    else (if lines[0] == BeginLine || lines[0] == EndLine then [lines[0]] else [])
         + Delimiters(lines[1..])
  }

  lemma {:induction false} DelimitersAppend(a: seq<string>, b: seq<string>)
    ensures Delimiters(a + b) == Delimiters(a) + Delimiters(b)
  {
    if a == [] {
      assert a + b == b;
    } else {
      var x, rest := a[0], a[1..];
      assert a + b == [x] + (rest + b) && a == [x] + rest;
      DelimitersCons(x, rest + b);
      DelimitersCons(x, rest);
      DelimitersAppend(rest, b);
      Assoc3(if x == BeginLine || x == EndLine then [x] else [], Delimiters(rest), Delimiters(b));
    }
  }

  lemma DelimitersCons(x: string, rest: seq<string>)
    ensures Delimiters([x] + rest)
         == (if x == BeginLine || x == EndLine then [x] else []) + Delimiters(rest)
  {
    assert ([x] + rest)[0] == x && ([x] + rest)[1..] == rest;
  }

  /** No line of a card other than its first and last is a delimiter. */
  lemma VcardDelimiters(c: Contact)
    ensures Delimiters(VcardLines(c)) == [BeginLine, EndLine]
  {
    var ml := LinesOf(c, Properties);
    forall l | l in ml ensures l != BeginLine && l != EndLine {
      ContentLineNotDelimiter(c, l);
    }
    NoDelimiters(ml);
    DelimitersAppend([BeginLine] + ml, [EndLine]);
    DelimitersAppend([BeginLine], ml);
  }

  lemma ContentLineNotDelimiter(c: Contact, l: string)
    requires l in LinesOf(c, Properties)
    ensures l != BeginLine && l != EndLine
  {
    LinesOfMembers(c, Properties, l);
    var p :| p in Properties && Present(c, p) && Line(c, p) == l;
    LineName(p, Value(c, p));
    BeginLineName();
    EndLineName();
    NameNotDelimiter(p);
  }

  lemma {:induction false} NoDelimiters(lines: seq<string>)
    requires forall l :: l in lines ==> l != BeginLine && l != EndLine
    ensures Delimiters(lines) == []
  {
    if lines != [] {
      assert lines[0] in lines;
      assert forall l :: l in lines[1..] ==> l in lines;
      NoDelimiters(lines[1..]);
    }
  }

  /** `n` cards' worth of delimiters: BEGIN, END, BEGIN, END, ... */
  function Alternating(n: nat): seq<string> {
    if n == 0 then [] else [BeginLine, EndLine] + Alternating(n - 1)
  }


  lemma {:induction false} AllLinesDelimiters(cs: seq<Contact>)
    ensures Delimiters(AllLines(cs)) == Alternating(|cs|)
  {
    if cs != [] {
      AllLinesDelimiters(cs[1..]);
      VcardDelimiters(cs[0]);
      CardThenRest(VcardLines(cs[0]), AllLines(cs[1..]), |cs| - 1);
    }
  }

  lemma CardThenRest(card: seq<string>, rest: seq<string>, n: nat)
    requires Delimiters(card) == [BeginLine, EndLine] && Delimiters(rest) == Alternating(n)
    ensures Delimiters(card + [""] + rest) == Alternating(n + 1)
  {
    DelimitersAppend(card + [""], rest);
    DelimitersAppend(card, [""]);
  }

  lemma {:induction false} AlternatingCounts(n: nat)
    ensures Count(Alternating(n), BeginLine) == n
    ensures Count(Alternating(n), EndLine) == n
  {
    if n > 0 {
      AlternatingCounts(n - 1);
      var a := Alternating(n);
      assert a[1..] == [EndLine] + Alternating(n - 1);
      assert a[1..][1..] == Alternating(n - 1);
    }
  }

  /** Counting a delimiter among all lines or among the delimiters alone
      gives the same number. */
  lemma {:induction false} CountThroughDelimiters(lines: seq<string>, x: string)
    requires x == BeginLine || x == EndLine
    ensures Count(lines, x) == Count(Delimiters(lines), x)
  {
    if lines != [] {
      CountThroughDelimiters(lines[1..], x);
      var d := Delimiters(lines[1..]);
      if lines[0] == BeginLine || lines[0] == EndLine {
        assert Delimiters(lines) == [lines[0]] + d;
        assert ([lines[0]] + d)[0] == lines[0] && ([lines[0]] + d)[1..] == d;
      } else {
        assert Delimiters(lines) == [] + d == d;
      }
    }
  }

  /** Lines whose delimiters alternate n times hold n of each. */
  lemma DelimiterCounts(lines: seq<string>, n: nat)
    requires Delimiters(lines) == Alternating(n)
    ensures Count(lines, BeginLine) == n && Count(lines, EndLine) == n
  {
    CountThroughDelimiters(lines, BeginLine);
    CountThroughDelimiters(lines, EndLine);
    AlternatingCounts(n);
  }

  /** Read as lines, the bulk body is each contact's card in list order,
      each followed by one blank line. */
  lemma BulkBodyLines(cs: seq<Contact>)
    requires cs != [] && NoRawNewlines(cs)
    ensures ExportAll(cs).Ok? && Split(ExportAll(cs).body, '\n') == AllLines(cs)
  {
    assert ExportAll(cs).body == Join(Vcards(cs), "\n");
    BulkLines(cs);
  }

  /** When no field printed raw holds a newline, the delimiter lines of the
      bulk body of n contacts are BEGIN, END repeated n times. */
  lemma BulkDelimiters(cs: seq<Contact>)
    requires cs != [] && NoRawNewlines(cs)
    ensures ExportAll(cs).Ok?
    ensures Delimiters(Split(ExportAll(cs).body, '\n')) == Alternating(|cs|)
  {
    BulkBodyLines(cs);
    AllLinesDelimiters(cs);
  }

  /** ... and so the body holds exactly n lines `BEGIN:VCARD` and n lines
      `END:VCARD`. */
  lemma BulkCounts(cs: seq<Contact>)
    requires cs != [] && NoRawNewlines(cs)
    ensures ExportAll(cs).Ok?
    ensures Count(Split(ExportAll(cs).body, '\n'), BeginLine) == |cs|
    ensures Count(Split(ExportAll(cs).body, '\n'), EndLine) == |cs|
  {
    BulkDelimiters(cs);
    DelimiterCounts(Split(ExportAll(cs).body, '\n'), |cs|);
  }

  /** A failing database makes `getContacts` return the empty list, so the
      export answers "not found" rather than a server error. */
  lemma GetOnDatabaseFailure(table: Table)
    ensures Get(table, false) == NotFound(NoContacts)
  {
  }

  /** With the database up and no printed field holding a newline, the
      body's lines hold one `BEGIN:VCARD` and one `END:VCARD` line per row of
      the table, alternating, begin first. */
  lemma GetExportsEveryRow(table: Table)
    requires NoRawNewlines(table)
    ensures table != [] ==> Get(table, true).Ok?
    ensures table != [] ==>
      Delimiters(Split(Get(table, true).body, '\n')) == Alternating(|table|)
    ensures table != [] ==>
      && Count(Split(Get(table, true).body, '\n'), BeginLine) == |table|
      && Count(Split(Get(table, true).body, '\n'), EndLine) == |table|
  {
    if table != [] {
      var listed := Actions.GetContacts(table, None, true);
      ListedWithoutNewlines(table);
      assert Get(table, true) == ExportAll(listed);
      BulkDelimiters(listed);
      BulkCounts(listed);
    }
  }

  /** The full listing holds as many rows as the table, all of them rows of
      the table. */
  lemma ListedWithoutNewlines(table: Table)
    requires NoRawNewlines(table)
    ensures |Actions.GetContacts(table, None, true)| == |table|
    ensures NoRawNewlines(Actions.GetContacts(table, None, true))
  {
    var listed := Actions.GetContacts(table, None, true);
    Actions.NoQueryListsEverything(table, None);
    forall c | c in listed ensures NoRawNewline(c) {
      assert multiset(listed)[c] > 0;
    }
  }
}
