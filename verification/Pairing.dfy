/**
 The pairing line: the web client prints it, the desktop client reads it back. The reader forgives white space anywhere,
 letter case, and colons between the bytes of the fingerprint; nothing else.
 */
module Pairing {
  import opened Wrappers
  import opened Sequences
  import opened Strings

  datatype Code = Code(network: string, address: string, fingerprint: string)

  // ---- reading ---------------------------------------------------------------------------------

  function Compact(text: string): string {
    Filter(text, c => !IsSpace(c))
  }

  function Part(parts: seq<string>, i: nat): string {
    if i < |parts| then parts[i] else ""
  }

  /** Head, network and address, and everything after the third colon with its colons dropped; missing parts are empty. */
  function Fields(compact: string): (fields: seq<string>)
    ensures |fields| == 4
  {
    var parts := Split(compact, ':');
    [Part(parts, 0), Part(parts, 1), Part(parts, 2), if |parts| > 3 then Concat(parts[3..]) else ""]
  }

  function Candidate(text: string): string {
    Lower(Join(Fields(Compact(text)), ':'))
  }

  predicate Hex(s: string) {
    forall i :: 0 <= i < |s| ==> IsDigit(s[i]) || 'a' <= s[i] <= 'f'
  }

  predicate Octet(s: string) {
    1 <= |s| <= 3 && forall i :: 0 <= i < |s| ==> IsDigit(s[i])
  }

  predicate Dotted(s: string) {
    var octets := Split(s, '.');
    |octets| == 4 && forall i :: 0 <= i < 4 ==> Octet(octets[i])
  }

  function Number(digits: string): nat {
    if digits == "" then 0
    else
      var last := digits[|digits| - 1];
      10 * Number(digits[..|digits| - 1]) + (if IsDigit(last) then (last - '0') as nat else 0)
  }

  predicate Shaped(c: Code) {
    |c.network| == 16 && Hex(c.network) && Dotted(c.address) && |c.fingerprint| == 64 && Hex(c.fingerprint)
  }

  predicate InRange(address: string) {
    forall octet :: octet in Split(address, '.') ==> Number(octet) <= 255
  }

  predicate Valid(c: Code) {
    Shaped(c) && InRange(c.address)
  }

  function Written(head: string, network: string, address: string, fingerprint: string): string {
    head + ":" + network + ":" + address + ":" + fingerprint
  }

  /** The pattern, matched from both ends: its middle group is all that varies in length. */
  function Match(s: string): Option<Code> {
    if |s| < 89 then None
    else
      var n := |s|;
      var code := Code(s[7..23], s[24..n - 65], s[n - 64..]);
      if s[..7] == "DEPSIS:" && s[23] == ':' && s[n - 65] == ':' && Shaped(code) then Some(code) else None
  }

  /** `replace(/^depsis:/, 'DEPSIS:')` */
  function Headed(s: string): string {
    if |s| >= 7 && s[..7] == "depsis:" then "DEPSIS:" + s[7..] else s
  }

  function Parse(text: string): Option<Code> {
    var found := Match(Headed(Candidate(text)));
    if found.None? then None else if InRange(found.value.address) then found else None
  }

  // ---- printing --------------------------------------------------------------------------------

  function Digits(s: string): nat {
    if s != "" && IsDigit(s[0]) then 1 + Digits(s[1..]) else 0
  }

  /** Starts with n runs of digits with dots between them. */
  predicate StartsDotted(s: string, n: nat)
    decreases n
  {
    n > 0 ==>
      var run := Digits(s);
      run > 0 && (n == 1 || (run < |s| && s[run] == '.' && StartsDotted(s[run + 1..], n - 1)))
  }

  function FirstDotted(addresses: seq<string>): Option<string> {
    if addresses == [] then None
    else if StartsDotted(addresses[0], 4) then Some(addresses[0])
    else FirstDotted(addresses[1..])
  }

  /** The certificate's fingerprint as the screen keeps it. */
  function Plain(fingerprint: string): string {
    Lower(Dropped(fingerprint, ':'))
  }

  function Print(c: Code): string {
    Written("DEPSIS", c.network, c.address, c.fingerprint)
  }

  /** The line on screen, when the network is up, has an IPv4 address and the certificate is known. */
  function Shown(online: bool, network: string, addresses: seq<string>, fingerprint: Option<string>): Option<string> {
    var address := FirstDotted(addresses);
    if !online || address.None? || fingerprint.None? then None
    else Some(Print(Code(network, Split(address.value, '/')[0], Plain(fingerprint.value))))
  }

  // ---- what the reader accepts -----------------------------------------------------------------

  lemma AddressIsPlain(address: string)
    requires Dotted(address)
    ensures forall d :: d in address ==> IsDigit(d) || d == '.'
  {
    var octets := Split(address, '.');
    ConcatOfSplit(address, '.');
    assert octets == [octets[0], octets[1], octets[2], octets[3]];
    hide Split;
    ConcatFour(octets[0], octets[1], octets[2], octets[3]);
    var digits := octets[0] + octets[1] + octets[2] + octets[3];
    assert forall d :: d in digits ==> IsDigit(d);
    forall d | d in address ensures IsDigit(d) || d == '.' {
      assert d != '.' ==> d in digits;
    }
  }

  lemma ShapedHasNoColon(c: Code)
    requires Shaped(c)
    ensures ':' !in c.network && ':' !in c.address && ':' !in c.fingerprint && c.fingerprint != ""
    ensures Lower(c.network) == c.network && Lower(c.address) == c.address && Lower(c.fingerprint) == c.fingerprint
  {
    AddressIsPlain(c.address);
    assert forall i :: 0 <= i < |c.address| ==> c.address[i] in c.address;
  }

  lemma ConcatFour(a: string, b: string, c: string, d: string)
    ensures Concat([a, b, c, d]) == a + b + c + d
  {
    assert [a, b, c, d][1..] == [b, c, d] && [b, c, d][1..] == [c, d] && [c, d][1..] == [d] && [d][1..] == [];
    assert Concat([d]) == d + Concat([]) == d;
    assert Concat([c, d]) == c + d;
    assert Concat([b, c, d]) == b + (c + d);
    assert Concat([a, b, c, d]) == a + (b + (c + d));
    hide Concat;
    assert a + (b + (c + d)) == a + b + c + d;
  }

  lemma MatchIff(s: string, c: Code)
    ensures Match(s) == Some(c) <==> Shaped(c) && s == Print(c)
  {
    if Shaped(c) && s == Print(c) {
      assert s[7..23] == c.network;
      assert s[24..|s| - 65] == c.address;
      assert s[|s| - 64..] == c.fingerprint;
    }
    if Match(s) == Some(c) {
      assert s == s[..7] + s[7..23] + [s[23]] + s[24..|s| - 65] + [s[|s| - 65]] + s[|s| - 64..];
    }
  }

  lemma JoinFour(a: string, b: string, c: string, d: string)
    ensures Join([a, b, c, d], ':') == Written(a, b, c, d)
  {
    assert [a, b, c, d][1..] == [b, c, d] && [b, c, d][1..] == [c, d] && [c, d][1..] == [d];
    assert Join([c, d], ':') == c + ":" + d;
    assert Join([b, c, d], ':') == b + ":" + (c + ":" + d);
    assert Join([a, b, c, d], ':') == a + ":" + (b + ":" + (c + ":" + d));
    hide Join;
    WrittenNested(a, b, c, d);
  }

  lemma WrittenNested(a: string, b: string, c: string, d: string)
    ensures Written(a, b, c, d) == a + ":" + (b + ":" + (c + ":" + d))
  {
    assert b + ":" + (c + ":" + d) == b + ":" + c + ":" + d;
    assert a + ":" + (b + ":" + c + ":" + d) == Written(a, b, c, d);
  }

  lemma SplitWritten(a: string, b: string, c: string, d: string)
    requires ':' !in a && ':' !in b && ':' !in c
    ensures Split(Written(a, b, c, d), ':') == [a, b, c] + Split(d, ':')
  {
    hide Split, Written;
    WrittenNested(a, b, c, d);
    SplitFirst(a, b + ":" + (c + ":" + d), ':');
    SplitFirst(b, c + ":" + d, ':');
    SplitFirst(c, d, ':');
    assert [a] + ([b] + ([c] + Split(d, ':'))) == [a, b, c] + Split(d, ':');
  }

  function LowerAll(parts: seq<string>): (lowered: seq<string>)
    ensures |lowered| == |parts|
    ensures forall i :: 0 <= i < |parts| ==> lowered[i] == Lower(parts[i])
  {
    if parts == [] then [] else [Lower(parts[0])] + LowerAll(parts[1..])
  }

  lemma {:induction false} LowerSplit(s: string, sep: char)
    requires LowerChar(sep) == sep && !('a' <= sep <= 'z')
    ensures Split(Lower(s), sep) == LowerAll(Split(s, sep))
  {
    if s == "" {
      assert Lower("") == "";
    } else {
      var rest := Split(s[1..], sep);
      LowerSplit(s[1..], sep);
      assert Lower(s) == [LowerChar(s[0])] + Lower(s[1..]);
      SplitStep(s[0], s[1..], sep);
      SplitStep(LowerChar(s[0]), Lower(s[1..]), sep);
      assert s == [s[0]] + s[1..];
      assert Lower("") == "" && Lower([s[0]]) == [LowerChar(s[0])];
      LowerConcat([s[0]], rest[0]);
      hide Split, Lower;
    }
  }

  lemma SplitStep(c: char, s: string, sep: char)
    ensures var rest := Split(s, sep);
            Split([c] + s, sep) == if c == sep then [""] + rest else [[c] + rest[0]] + rest[1..]
  {
    assert ([c] + s)[1..] == s;
  }

  lemma LowerConcat(a: string, b: string)
    ensures Lower(a + b) == Lower(a) + Lower(b)
  {
  }

  lemma {:induction false} LowerOfAll(parts: seq<string>)
    ensures Concat(LowerAll(parts)) == Lower(Concat(parts))
  {
    if parts != [] {
      LowerOfAll(parts[1..]);
      LowerConcat(parts[0], Concat(parts[1..]));
      assert LowerAll(parts)[1..] == LowerAll(parts[1..]);
    }
  }

  /** Lowering the line first or last comes to the same. */
  lemma LowerFields(s: string)
    ensures Lower(Join(Fields(s), ':')) == Join(Fields(Lower(s)), ':')
  {
    var parts, lowered := Split(s, ':'), Split(Lower(s), ':');
    LowerSplit(s, ':');
    if |parts| > 3 {
      LowerOfAll(parts[3..]);
      assert lowered[3..] == LowerAll(parts[3..]);
    }
    var f, g := Fields(s), Fields(Lower(s));
    assert Lower("") == "";
    assert g == [Lower(f[0]), Lower(f[1]), Lower(f[2]), Lower(f[3])];
    JoinFour(f[0], f[1], f[2], f[3]);
    JoinFour(g[0], g[1], g[2], g[3]);
    WrittenLowered(f[0], f[1], f[2], f[3]);
  }

  lemma WrittenLowered(a: string, b: string, c: string, d: string)
    ensures Lower(Written(a, b, c, d)) == Written(Lower(a), Lower(b), Lower(c), Lower(d))
  {
    var colon := ":";
    assert Lower(colon) == colon;
    LowerConcat(a, colon);
    LowerConcat(a + colon, b);
    LowerConcat(a + colon + b, colon);
    LowerConcat(a + colon + b + colon, c);
    LowerConcat(a + colon + b + colon + c, colon);
    LowerConcat(a + colon + b + colon + c + colon, d);
  }

  lemma FieldsTyped(line: string, head: string, c: Code) returns (typed: string)
    requires Fields(line) == [head, c.network, c.address, c.fingerprint] && c.fingerprint != ""
    ensures Dropped(typed, ':') == c.fingerprint && line == Written(head, c.network, c.address, typed)
  {
    var parts := Split(line, ':');
    assert |parts| > 3;
    hide Split, Written, Dropped;
    var rest := parts[3..];
    typed := Join(rest, ':');
    JoinOfSplit(line, ':');
    assert parts == [head] + ([c.network] + ([c.address] + rest));
    JoinMore(head, [c.network] + ([c.address] + rest), ':');
    JoinMore(c.network, [c.address] + rest, ':');
    JoinMore(c.address, rest, ':');
    ConcatIsDropped(rest, ':');
    WrittenNested(head, c.network, c.address, typed);
  }

  lemma FieldsOfWritten(head: string, network: string, address: string, typed: string)
    requires ':' !in head && ':' !in network && ':' !in address
    ensures Fields(Written(head, network, address, typed)) == [head, network, address, Dropped(typed, ':')]
  {
    hide Split, Written, Dropped;
    SplitWritten(head, network, address, typed);
    ConcatOfSplit(typed, ':');
    assert ([head, network, address] + Split(typed, ':'))[3..] == Split(typed, ':');
  }

  /** The four fields, given what the line is with its fingerprint as typed. */
  lemma FieldsIff(line: string, head: string, c: Code)
    requires ':' !in head && ':' !in c.network && ':' !in c.address && c.fingerprint != ""
    ensures Fields(line) == [head, c.network, c.address, c.fingerprint]
            <==> exists typed :: Dropped(typed, ':') == c.fingerprint && line == Written(head, c.network, c.address, typed)
  {
    hide Fields, Written, Dropped;
    if Fields(line) == [head, c.network, c.address, c.fingerprint] {
      var typed := FieldsTyped(line, head, c);
    }
    if typed :| Dropped(typed, ':') == c.fingerprint && line == Written(head, c.network, c.address, typed) {
      FieldsOfWritten(head, c.network, c.address, typed);
    }
  }

  /** The candidate, lowered, is headed like a pairing line exactly when its fields say so. */
  lemma CandidateIff(s: string, c: Code)
    requires Shaped(c)
    ensures Lower(s) == s ==> (Headed(s) == Print(c) <==> s == Written("depsis", c.network, c.address, c.fingerprint))
  {
    if Lower(s) == s {
      var small, large := "depsis:", "DEPSIS:";
      var tail := c.network + ":" + c.address + ":" + c.fingerprint;
      assert Print(c) == large + tail;
      assert Written("depsis", c.network, c.address, c.fingerprint) == small + tail;
      assert (large + tail)[7..] == tail && (small + tail)[..7] == small;
      assert (large + tail)[0] == 'D' && IsUpper('D');
      assert |s| > 0 ==> !IsUpper(Lower(s)[0]);
      assert |s| >= 7 ==> s == s[..7] + s[7..];
    }
  }

  lemma JoinIsWritten(fields: seq<string>, head: string, c: Code)
    requires |fields| == 4 && forall i :: 0 <= i < 4 ==> ':' !in fields[i]
    requires ':' !in head && ':' !in c.network && ':' !in c.address && ':' !in c.fingerprint
    ensures Join(fields, ':') == Written(head, c.network, c.address, c.fingerprint)
            <==> fields == [head, c.network, c.address, c.fingerprint]
  {
    JoinFour(head, c.network, c.address, c.fingerprint);
    SplitOfJoin(fields, ':');
    SplitOfJoin([head, c.network, c.address, c.fingerprint], ':');
  }

  lemma FieldsHaveNoColon(s: string)
    ensures forall i :: 0 <= i < 4 ==> ':' !in Fields(s)[i]
  {
    var parts := Split(s, ':');
    if |parts| > 3 {
      ConcatIsDropped(parts[3..], ':');
    }
  }

  /**
   What the reader accepts, and as what: with white space dropped and letters lowered, the text is the line, colons of
   any number and place in its fingerprint; and every part of the result is in form and every octet in range.
   */
  lemma ParseIff(text: string, c: Code)
    ensures Parse(text) == Some(c) <==>
              && Valid(c)
              && exists typed :: Dropped(typed, ':') == c.fingerprint
                                 && Lower(Compact(text)) == Written("depsis", c.network, c.address, typed)
  {
    hide Split, Filter, Join, Written, Match, Headed, Fields, Lower, Hex, Dotted, InRange;
    var line := Lower(Compact(text));
    LowerFields(Compact(text));
    assert Candidate(text) == Join(Fields(line), ':');
    MatchIff(Headed(Candidate(text)), c);
    if Shaped(c) {
      ShapedHasNoColon(c);
      LowerTwice(Join(Fields(Compact(text)), ':'));
      CandidateIff(Candidate(text), c);
      FieldsHaveNoColon(line);
      NoColonInHead();
      JoinIsWritten(Fields(line), "depsis", c);
      FieldsIff(line, "depsis", c);
    }
  }

  lemma NoColonInHead()
    ensures ':' !in "depsis"
  {
  }

  lemma LowerTwice(s: string)
    ensures Lower(Lower(s)) == Lower(s)
  {
  }

  // ---- what it forgives ------------------------------------------------------------------------

  /** Text is read by its lowered, compacted form alone. */
  lemma ReadAlike(a: string, b: string)
    requires Lower(Compact(a)) == Lower(Compact(b))
    ensures Parse(a) == Parse(b)
  {
    hide Parse, Lower, Compact;
    if Parse(a).Some? {
      ParseIff(a, Parse(a).value);
      ParseIff(b, Parse(a).value);
    }
    if Parse(b).Some? {
      ParseIff(a, Parse(b).value);
      ParseIff(b, Parse(b).value);
    }
  }

  lemma {:induction false} CompactLowers(s: string)
    ensures Compact(Lower(s)) == Lower(Compact(s))
  {
    if s != "" {
      CompactLowers(s[1..]);
      assert Lower(s)[1..] == Lower(s[1..]);
      var head := if IsSpace(s[0]) then "" else [s[0]];
      LowerConcat(head, Compact(s[1..]));
    }
  }

  /** White space anywhere and letter case make no difference. */
  lemma SpaceAndCaseAreForgiven(before: string, space: string, after: string, other: string)
    requires forall i :: 0 <= i < |space| ==> IsSpace(space[i])
    requires Lower(other) == Lower(before + space + after)
    ensures Parse(other) == Parse(before + after)
  {
    hide Filter, Parse;
    NothingButSpace(space);
    FilterConcat(before + space, after, c => !IsSpace(c));
    FilterConcat(before, space, c => !IsSpace(c));
    FilterConcat(before, after, c => !IsSpace(c));
    assert Compact(before + space + after) == Compact(before + after);
    CompactLowers(other);
    CompactLowers(before + space + after);
    ReadAlike(other, before + after);
  }

  lemma {:induction false} NothingButSpace(space: string)
    requires forall i :: 0 <= i < |space| ==> IsSpace(space[i])
    ensures Compact(space) == ""
  {
    if space != "" {
      NothingButSpace(space[1..]);
    }
  }

  // ---- round trips -----------------------------------------------------------------------------

  lemma {:induction false} NoSpaceToDrop(s: string)
    requires forall i :: 0 <= i < |s| ==> !IsSpace(s[i])
    ensures Compact(s) == s
  {
    if s != "" {
      NoSpaceToDrop(s[1..]);
    }
  }

  /** Characters of a pairing line, colons of the fingerprint and capitals allowed. */
  predicate Typable(s: string) {
    forall i :: 0 <= i < |s| ==> !IsSpace(s[i])
  }

  lemma TypedFingerprint(typed: string, c: Code)
    requires Shaped(c) && Plain(typed) == c.fingerprint
    ensures Typable(typed) && Dropped(Lower(typed), ':') == c.fingerprint
  {
    DroppedLowers(typed);
    forall i | 0 <= i < |typed| ensures !IsSpace(typed[i]) {
      assert typed[i] in typed;
      if typed[i] != ':' {
        assert typed[i] in Dropped(typed, ':');
        var j :| 0 <= j < |Dropped(typed, ':')| && Dropped(typed, ':')[j] == typed[i];
        assert c.fingerprint[j] == LowerChar(typed[i]);
      }
    }
  }

  lemma {:induction false} DroppedLowers(s: string)
    ensures Dropped(Lower(s), ':') == Lower(Dropped(s, ':'))
  {
    if s != "" {
      DroppedLowers(s[1..]);
      assert Lower(s)[1..] == Lower(s[1..]);
      var head := if s[0] == ':' then "" else [s[0]];
      LowerConcat(head, Dropped(s[1..], ':'));
    }
  }

  lemma TypableLine(c: Code, typed: string)
    requires Shaped(c) && Typable(typed)
    ensures Typable(Written("DEPSIS", c.network, c.address, typed))
  {
    ShapedHasNoSpace(c);
    var head := "DEPSIS:";
    assert Typable(head);
    assert Typable(head + c.network + ":");
    assert Typable(head + c.network + ":" + c.address + ":");
    assert Written("DEPSIS", c.network, c.address, typed) == head + c.network + ":" + c.address + ":" + typed;
  }

  lemma ShapedHasNoSpace(c: Code)
    requires Shaped(c)
    ensures Typable(c.network) && Typable(c.address) && Typable(c.fingerprint)
  {
    AddressIsPlain(c.address);
    assert forall i :: 0 <= i < |c.address| ==> c.address[i] in c.address;
  }

  /** A line whose fingerprint is typed with colons or capitals is read as the same code. */
  lemma WrittenIsRead(c: Code, typed: string)
    requires Valid(c) && Plain(typed) == c.fingerprint
    ensures Parse(Written("DEPSIS", c.network, c.address, typed)) == Some(c)
  {
    hide Split, Filter, Parse, Hex, Dotted, InRange, Written, Lower;
    var line := Written("DEPSIS", c.network, c.address, typed);
    TypedFingerprint(typed, c);
    TypableLine(c, typed);
    NoSpaceToDrop(line);
    ShapedHasNoColon(c);
    WrittenLowered("DEPSIS", c.network, c.address, typed);
    HeadLowers();
    ParseIff(line, c);
  }

  lemma HeadLowers()
    ensures Lower("DEPSIS") == "depsis"
  {
  }

  /** Printing a valid code and reading it gives the code. */
  lemma PrintedIsRead(c: Code)
    requires Valid(c)
    ensures Parse(Print(c)) == Some(c)
  {
    ShapedHasNoColon(c);
    NothingDropped(c.fingerprint);
    WrittenIsRead(c, c.fingerprint);
  }

  lemma {:induction false} NothingDropped(s: string)
    requires ':' !in s
    ensures Dropped(s, ':') == s
  {
    if s != "" {
      NothingDropped(s[1..]);
    }
  }

  /** What was read, printed and read again, is what was read; and each of its four octets is a number up to 255. */
  lemma ReadIsPrinted(text: string)
    requires Parse(text).Some?
    ensures Parse(Print(Parse(text).value)) == Parse(text)
    ensures var octets := Split(Parse(text).value.address, '.');
            |octets| == 4 && forall i :: 0 <= i < 4 ==> Octet(octets[i]) && Number(octets[i]) <= 255
  {
    hide Parse, Split;
    ParseIff(text, Parse(text).value);
    PrintedIsRead(Parse(text).value);
  }

  /** Two valid codes are never printed alike. */
  lemma PrintIsInjective(c: Code, d: Code)
    requires Valid(c) && Valid(d) && Print(c) == Print(d)
    ensures c == d
  {
    hide Parse, Print;
    PrintedIsRead(c);
    PrintedIsRead(d);
  }

  /**
   The line on screen is read back as the network it names, the address without its mask, and the fingerprint without
   colons or capitals, whenever those are in form. An address is shown only if it begins like an IPv4 address.
   */
  lemma ShownIsRead(online: bool, network: string, addresses: seq<string>, fingerprint: Option<string>)
    requires Shown(online, network, addresses, fingerprint).Some?
    ensures FirstDotted(addresses).Some? && FirstDotted(addresses).value in addresses
    ensures StartsDotted(FirstDotted(addresses).value, 4)
    ensures var c := Code(Lower(network), Split(FirstDotted(addresses).value, '/')[0], Plain(fingerprint.value));
            Valid(c) ==> Parse(Shown(online, network, addresses, fingerprint).value) == Some(c)
  {
    hide Split, Parse, Lower, Valid, StartsDotted, Filter;
    FirstDottedHolds(addresses);
    var address := Split(FirstDotted(addresses).value, '/')[0];
    var c := Code(Lower(network), address, Plain(fingerprint.value));
    if Valid(c) {
      var line := Print(Code(network, address, Plain(fingerprint.value)));
      ValidIsShaped(c);
      ShapedHasNoColon(c);
      PrintedIsRead(c);
      WrittenLowered("DEPSIS", network, address, c.fingerprint);
      WrittenLowered("DEPSIS", c.network, address, c.fingerprint);
      assert Lower(line) == Lower(Print(c));
      CompactLowers(line);
      CompactLowers(Print(c));
      ReadAlike(line, Print(c));
    }
  }

  lemma ValidIsShaped(c: Code)
    requires Valid(c)
    ensures Shaped(c)
  {
  }

  lemma {:induction false} FirstDottedHolds(addresses: seq<string>)
    ensures FirstDotted(addresses).Some? ==>
              FirstDotted(addresses).value in addresses && StartsDotted(FirstDotted(addresses).value, 4)
  {
    hide StartsDotted;
    if addresses != [] {
      FirstDottedHolds(addresses[1..]);
    }
  }

  // ---- what the parts are ----------------------------------------------------------------------

  const HEX_DIGITS := "0123456789abcdef"
  const DECIMALS := "0123456789"

  /** The value of a decimal digit: its place among them. */
  function Value(digit: char): nat {
    if IsDigit(digit) then (digit - '0') as nat else 0
  }

  /** An octet is one to three decimal digits, read in base ten. */
  lemma OctetIs(s: string)
    ensures Octet(s) <==> 1 <= |s| <= 3 && forall i :: 0 <= i < |s| ==> s[i] in DECIMALS
    ensures Octet(s) && |s| == 1 ==> Number(s) == Value(s[0])
    ensures Octet(s) && |s| == 2 ==> Number(s) == 10 * Value(s[0]) + Value(s[1])
    ensures Octet(s) && |s| == 3 ==> Number(s) == 100 * Value(s[0]) + 10 * Value(s[1]) + Value(s[2])
    ensures forall i :: 0 <= i < 10 ==> Value(DECIMALS[i]) == i
  {
    forall c ensures IsDigit(c) <==> c in DECIMALS {
      DecimalsAre(c);
    }
    assert Number("") == 0;
    if |s| >= 1 {
      assert s[..1][..0] == "" && s[..1][0] == s[0];
      assert |s| == 1 ==> s[..1] == s;
    }
    if |s| >= 2 {
      assert s[..2][..1] == s[..1] && s[..2][1] == s[1];
      assert |s| == 2 ==> s[..2] == s;
    }
    if |s| >= 3 {
      assert s[..3][..2] == s[..2] && s[..3][2] == s[2];
      assert |s| == 3 ==> s[..3] == s;
    }
  }

  lemma DecimalsAre(c: char)
    ensures IsDigit(c) <==> c in DECIMALS
  {
    if IsDigit(c) {
      assert DECIMALS[(c - '0') as int] == c;
    }
  }

  lemma HexDigitsAre(c: char)
    ensures IsDigit(c) || 'a' <= c <= 'f' <==> c in HEX_DIGITS
  {
    if IsDigit(c) {
      assert HEX_DIGITS[(c - '0') as int] == c;
    }
    if 'a' <= c <= 'f' {
      assert HEX_DIGITS[10 + (c - 'a') as int] == c;
    }
  }

  /** What a valid code is, letter by letter: sixteen hex digits, four octets up to 255 with dots between, sixty-four hex digits. */
  lemma ValidIff(c: Code)
    ensures Valid(c) <==>
              && |c.network| == 16 && (forall i :: 0 <= i < 16 ==> c.network[i] in HEX_DIGITS)
              && |c.fingerprint| == 64 && (forall i :: 0 <= i < 64 ==> c.fingerprint[i] in HEX_DIGITS)
              && exists o: seq<string> :: |o| == 4 && c.address == Join(o, '.')
                   && forall i :: 0 <= i < 4 ==> Octet(o[i]) && Number(o[i]) <= 255
  {
    hide Number, Join, Split, Octet;
    forall d ensures IsDigit(d) || 'a' <= d <= 'f' <==> d in HEX_DIGITS {
      HexDigitsAre(d);
    }
    if Valid(c) {
      JoinOfSplit(c.address, '.');
      var o := Split(c.address, '.');
      assert |o| == 4 && c.address == Join(o, '.');
    }
    if o: seq<string> :| |o| == 4 && c.address == Join(o, '.')
                          && forall i :: 0 <= i < 4 ==> Octet(o[i]) && Number(o[i]) <= 255 {
      forall i | 0 <= i < 4 ensures '.' !in o[i] {
        OctetHasNoDot(o[i]);
      }
      SplitOfJoin(o, '.');
    }
  }

  lemma OctetHasNoDot(s: string)
    requires Octet(s)
    ensures '.' !in s
  {
  }

  // ---- which address is shown ------------------------------------------------------------------

  /** The line is shown exactly when the network is up, some address begins like IPv4 and the certificate is known. */
  lemma {:induction false} ShownIff(online: bool, network: string, addresses: seq<string>, fingerprint: Option<string>)
    ensures Shown(online, network, addresses, fingerprint).Some? <==>
              online && fingerprint.Some? && exists i :: 0 <= i < |addresses| && StartsDotted(addresses[i], 4)
    ensures forall i :: 0 <= i < |addresses| && StartsDotted(addresses[i], 4)
                        && (forall j :: 0 <= j < i ==> !StartsDotted(addresses[j], 4)) ==>
              FirstDotted(addresses) == Some(addresses[i])
  {
    hide StartsDotted;
    if addresses != [] && !StartsDotted(addresses[0], 4) {
      ShownIff(online, network, addresses[1..], fingerprint);
      assert forall i :: 0 <= i < |addresses[1..]| ==> addresses[1..][i] == addresses[i + 1];
      assert forall i :: 0 < i < |addresses| ==> addresses[i] == addresses[1..][i - 1];
    }
  }

  lemma {:induction false} DigitsOf(octet: string, rest: string)
    requires forall i :: 0 <= i < |octet| ==> IsDigit(octet[i])
    requires rest == "" || !IsDigit(rest[0])
    ensures Digits(octet + rest) == |octet|
  {
    if octet == "" {
      assert octet + rest == rest;
    } else {
      assert (octet + rest)[1..] == octet[1..] + rest;
      DigitsOf(octet[1..], rest);
    }
  }

  /** Octets with dots between them begin like IPv4, whatever mask follows. */
  lemma {:induction false} DottedStarts(octets: seq<string>, rest: string)
    requires octets != [] && forall i :: 0 <= i < |octets| ==> Octet(octets[i])
    requires rest == "" || !IsDigit(rest[0])
    ensures StartsDotted(Join(octets, '.') + rest, |octets|)
    decreases |octets|
  {
    var s := Join(octets, '.') + rest;
    if |octets| == 1 {
      DigitsOf(octets[0], rest);
    } else {
      var tail := Join(octets[1..], '.') + rest;
      assert s == octets[0] + ("." + tail);
      DigitsOf(octets[0], "." + tail);
      DottedStarts(octets[1..], rest);
      assert s[|octets[0]|] == '.' && s[|octets[0]| + 1..] == tail;
    }
  }

  lemma {:induction false} DigitsHold(s: string)
    ensures Digits(s) <= |s|
    ensures forall i :: 0 <= i < Digits(s) ==> IsDigit(s[i])
    ensures Digits(s) < |s| ==> !IsDigit(s[Digits(s)])
  {
    if s != "" && IsDigit(s[0]) {
      DigitsHold(s[1..]);
    }
  }

  /** And only such: what begins like IPv4 is runs of digits with dots between them, and then anything. */
  lemma {:induction false} StartsDottedHas(s: string, n: nat) returns (runs: seq<string>, rest: string)
    requires n > 0 && StartsDotted(s, n)
    ensures |runs| == n && s == Join(runs, '.') + rest
    ensures forall i :: 0 <= i < n ==> runs[i] != "" && forall j :: 0 <= j < |runs[i]| ==> runs[i][j] in DECIMALS
    decreases n
  {
    var run := Digits(s);
    DigitsHold(s);
    hide Digits, Join;
    forall c ensures IsDigit(c) <==> c in DECIMALS {
      DecimalsAre(c);
    }
    if n == 1 {
      runs, rest := [s[..run]], s[run..];
      JoinOne(s[..run], '.');
    } else {
      var more;
      more, rest := StartsDottedHas(s[run + 1..], n - 1);
      runs := [s[..run]] + more;
      JoinMore(s[..run], more, '.');
      assert s == s[..run] + "." + s[run + 1..];
    }
  }

  // ---- letters ---------------------------------------------------------------------------------

  /** The fingerprint on screen: its letters lowered one by one, its colons gone. */
  lemma PlainIs(a: string, b: string)
    ensures Plain(a + ":" + b) == Plain(a) + Plain(b)
    ensures ':' !in a ==> |Plain(a)| == |a| && forall i :: 0 <= i < |a| ==> Plain(a)[i] == LowerChar(a[i])
  {
    hide Filter, Lower;
    FilterConcat(a + ":", b, c => c != ':');
    FilterConcat(a, ":", c => c != ':');
    ColonDropped();
    assert Dropped(a + ":" + b, ':') == Dropped(a, ':') + Dropped(b, ':');
    LowerConcat(Dropped(a, ':'), Dropped(b, ':'));
    if ':' !in a {
      NothingDropped(a);
    }
  }

  lemma ColonDropped()
    ensures Filter(":", c => c != ':') == ""
  {
    assert ":"[1..] == "";
  }

  const SPACES :=
    "\U{0009}\U{000A}\U{000B}\U{000C}\U{000D}\U{0020}\U{00A0}\U{1680}\U{2000}\U{2001}\U{2002}\U{2003}\U{2004}" +
    "\U{2005}\U{2006}\U{2007}\U{2008}\U{2009}\U{200A}\U{2028}\U{2029}\U{202F}\U{205F}\U{3000}\U{FEFF}"

  /** The characters dropped are the twenty-five that ECMAScript calls white space or line ends. */
  lemma SpacesAre(c: char)
    ensures IsSpace(c) <==> c in SPACES
  {
    assert SPACES[0] == '\U{0009}' && SPACES[1] == '\U{000A}' && SPACES[2] == '\U{000B}' && SPACES[3] == '\U{000C}';
    assert SPACES[4] == '\U{000D}' && SPACES[5] == ' ' && SPACES[6] == '\U{00A0}' && SPACES[7] == '\U{1680}';
    assert forall i :: 8 <= i < 19 ==> SPACES[i] == 0x2000 as char + (i - 8) as char;
    assert SPACES[19] == '\U{2028}' && SPACES[20] == '\U{2029}' && SPACES[21] == '\U{202F}' && SPACES[22] == '\U{205F}';
    assert SPACES[23] == '\U{3000}' && SPACES[24] == '\U{FEFF}' && |SPACES| == 25;
    if '\U{2000}' <= c <= '\U{200A}' {
      assert SPACES[8 + (c as int - 0x2000)] == c;
    }
  }
}
