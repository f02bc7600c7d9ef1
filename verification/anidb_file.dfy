/**
 * The FILE command of the AniDB UDP API ("FILE: Retrieve File Data"): building the
 * request text from a file's size and ed2k hash plus fixed field masks, and parsing
 * the 18-column reply into a structured record.
 */
module AniDBFile {
  import opened Wrappers
  import opened Text

  // ---------------------------------------------------------------------------
  // The request
  // ---------------------------------------------------------------------------

  type Byte = b: int | 0 <= b < 256

  /** A 64-bit signed integer (`long`). */
  type Int64 = n: int | -0x8000_0000_0000_0000 <= n <= 0x7FFF_FFFF_FFFF_FFFF

  /** The hashes of a local file that identify it to AniDB. */
  datatype FileHash = FileHash(fileSize: Int64, ed2kHash: string)

  /** A byte as exactly two upper-case hexadecimal digits. */
  function PadByte(b: Byte): string {
    PadLeft(ToHex(b), 2, '0')
  }

  /** The `fmask` field: episode/group cross-references (bits 0111 1111), no hashes or file info,
      quality and source (1100 0000), languages and description (1101 0001), MyList info (1111 0000). */
  function FMask(): string {
    PadByte(0x7F) + PadByte(0x00) + PadByte(0xC0) + PadByte(0xD1) + PadByte(0xF0)
  }

  /** The `amask` field: no anime information. */
  function AMask(): string {
    PadByte(0x00) + PadByte(0x00) + PadByte(0x00) + PadByte(0x00)
  }

  /** `PadByte` gives the two upper-case hex digits of the byte, high digit first. */
  lemma PadByteDigits(b: Byte)
    ensures PadByte(b) == [HexDigitChar(b / 16), HexDigitChar(b % 16)]
  {
    if b < 16 {
      assert ToHex(b) == [HexDigitChar(b)];
    } else {
      assert ToHex(b) == ToHex(b / 16) + [HexDigitChar(b % 16)];
    }
  }

  /** Reading `PadByte` back as hexadecimal gives the byte. */
  lemma PadByteRoundTrip(b: Byte)
    ensures AllUpperHex(PadByte(b)) && HexValue(PadByte(b)) == b
  {
    var h := ToHex(b);
    ToHexValue(b);
    if |h| < 2 {
      assert PadByte(b) == ['0'] + h;
      HexLeadingZero(h);
    }
  }

  // The five byte values of the masks, spelled one at a time.
  lemma Spelled7F() ensures PadByte(0x7F) == "7F" { assert ToHex(0x7F) == ToHex(7) + [HexDigitChar(15)]; }
  lemma Spelled00() ensures PadByte(0x00) == "00" { }
  lemma SpelledC0() ensures PadByte(0xC0) == "C0" { assert ToHex(0xC0) == ToHex(12) + [HexDigitChar(0)]; }
  lemma SpelledD1() ensures PadByte(0xD1) == "D1" { assert ToHex(0xD1) == ToHex(13) + [HexDigitChar(1)]; }
  lemma SpelledF0() ensures PadByte(0xF0) == "F0" { assert ToHex(0xF0) == ToHex(15) + [HexDigitChar(0)]; }

  /** The file mask spells `7F00C0D1F0`. */
  lemma FMaskSpelled()
    ensures FMask() == "7F00C0D1F0"
  {
    var spelled: string := "7F" + "00" + "C0" + "D1" + "F0";
    assert spelled == "7F00C0D1F0";
    assert FMask() == spelled by {
      Spelled7F(); Spelled00(); SpelledC0(); SpelledD1(); SpelledF0();
    }
  }

  /** The anime mask spells `00000000`. */
  lemma AMaskSpelled()
    ensures AMask() == "00000000"
  {
    Spelled00();
    assert AMask() == "00" + "00" + "00" + "00";
  }

  /** The command text, appended piece by piece. */
  method BaseCommand(fileData: FileHash) returns (command: string)
    ensures command == "FILE size=" + IntToString(fileData.fileSize) + "&ed2k=" + fileData.ed2kHash
                       + "&fmask=" + "7F00C0D1F0" + "&amask=" + "00000000"
  {
    var commandText := "FILE size=";
    commandText := commandText + IntToString(fileData.fileSize);
    commandText := commandText + "&ed2k=";
    commandText := commandText + fileData.ed2kHash;
    commandText := commandText + "&fmask=" + FMask();
    commandText := commandText + "&amask=" + AMask();
    FMaskSpelled();
    AMaskSpelled();
    command := commandText;
  }

  /** The size written into the command reads back, as a `long`, to the file's size. */
  lemma CommandSizeReadsBack(fileData: FileHash)
    ensures TryParseInt64(IntToString(fileData.fileSize)) == Some(fileData.fileSize as int)
  {
    IntToStringParses(fileData.fileSize, Int64Min, Int64Max);
  }

  // ---------------------------------------------------------------------------
  // Reply records
  // ---------------------------------------------------------------------------

  datatype Quality = VeryHigh | High | Medium | Low | VeryLow | Corrupted | EyeCancer | UnknownQuality

  datatype Source =
    | TV | Web | DVD | BluRay | VHS | HKDVD | HDDVD | HDTV | DTV | Camcorder | VCD | SVCD | LaserDisc
    | UnknownSource

  /** The bits of the reply's state column. */
  datatype StateFlag = CRCMatch | CRCErr | IsV2 | IsV3 | IsV4 | IsV5 | Uncensored | Censored | Chaptered

  /** One episode the file belongs to, with the share of the episode the file covers. */
  datatype EpisodeXRef = EpisodeXRef(episodeID: int, percentage: int)

  /** MyList data for the file; the view date is milliseconds since the Unix epoch. */
  datatype MyListInfo = MyListInfo(myListID: int, state: int, fileState: int, viewCount: int, viewDate: Option<int>)

  datatype ResponseGetFile = ResponseGetFile(
    fileID: int,
    animeID: int,
    groupID: Option<int>,
    deprecated: bool,
    version: int,
    censored: Option<bool>,
    crcMatches: Option<bool>,
    chaptered: bool,
    description: string,
    filename: string,
    quality: Quality,
    source: Source,
    episodeIDs: seq<EpisodeXRef>,
    audioLanguages: seq<string>,
    subtitleLanguages: seq<string>,
    myList: Option<MyListInfo>)

  /** The reply codes the parser tells apart: 220 FILE, 320 NO SUCH FILE, and any other. */
  datatype ReturnCode = File | NoSuchFile | OtherCode(value: int)

  datatype Response = Response(code: ReturnCode, file: Option<ResponseGetFile>)

  /** The exceptions parsing can throw. */
  datatype ParseError =
    | WrongColumnCount
    | FileIdNotInt
    | AnimeIdNotInt
    | BadEnumValue
    | IncompleteXRefPair
    | ViewDateOutOfRange
    | UnexpectedResponse

  // ---------------------------------------------------------------------------
  // Column helpers
  // ---------------------------------------------------------------------------

  /** The reply split at every `|`, empty columns kept, each column trimmed. */
  function Columns(receivedData: string): (parts: seq<string>)
    ensures |parts| == |Split(receivedData, '|')|
    ensures forall i :: 0 <= i < |parts| ==> parts[i] == Trim(Split(receivedData, '|')[i])
  {
    var pieces := Split(receivedData, '|');
    seq(|pieces|, i requires 0 <= i < |pieces| => Trim(pieces[i]))
  }

  /**
   * Columns written without `|` and without whitespace at either end, joined with
   * `|`, are read back as the same columns, in order and with empty ones kept.
   */
  lemma ColumnsJoin(cols: seq<string>)
    requires |cols| >= 1
    requires forall i :: 0 <= i < |cols| ==> '|' !in cols[i] && Trimmed(cols[i])
    ensures Columns(Join(cols, '|')) == cols
  {
    JoinSplit(cols, '|');
    forall i | 0 <= i < |cols| ensures Trim(cols[i]) == cols[i] {
      TrimOfTrimmed(cols[i]);
    }
  }

  /** `Enum.Parse` of an integer-backed enum, for the numeric spelling AniDB sends. */
  function EnumParse(s: string): Option<int> {
    TryParseInt32(s)
  }

  /** The bit each state flag occupies: its value is 2 to that power. */
  function FlagBit(f: StateFlag): nat {
    match f
    case CRCMatch => 0
    case CRCErr => 1
    case IsV2 => 2
    case IsV3 => 3
    case IsV4 => 4
    case IsV5 => 5
    case Uncensored => 6
    case Censored => 7
    case Chaptered => 12
  }

  const AllFlags: set<StateFlag> := {CRCMatch, CRCErr, IsV2, IsV3, IsV4, IsV5, Uncensored, Censored, Chaptered}

  /** Bit `k` of a natural number. */
  function BitAt(x: nat, k: nat): (b: nat)
    ensures b <= 1
  {
    if k == 0 then x % 2 else BitAt(x / 2, k - 1)
  }

  /**
   * `state.HasFlag(f)` on the 32-bit pattern of the parsed state value. Every flag
   * is a single bit, so `(state & f) == f` holds exactly when that bit is set.
   */
  predicate HasFlag(state: int, f: StateFlag) {
    BitAt(state % 0x1_0000_0000, FlagBit(f)) == 1
  }

  /** The set of flags present in a state value. */
  function StateFlags(state: int): (flags: set<StateFlag>)
    ensures forall f :: f in flags <==> HasFlag(state, f)
  {
    set f | f in AllFlags && HasFlag(state, f)
  }

  // The state value AniDB sends for a set of flags, as an independent reference.

  /** The bits a set of flags occupies. */
  function FlagBits(flags: set<StateFlag>): set<nat> {
    set f | f in flags :: FlagBit(f)
  }

  /** The number whose bits `0 .. n - 1` are the bits `k .. k + n - 1` that `bits` names. */
  function Pack(bits: set<nat>, k: nat, n: nat): nat
    decreases n
  {
    if n == 0 then 0 else (if k in bits then 1 else 0) + 2 * Pack(bits, k + 1, n - 1)
  }

  /** The state value with exactly the bits of `flags` set: the sum of their values. */
  function StateValue(flags: set<StateFlag>): nat {
    Pack(FlagBits(flags), 0, 13)
  }

  function Pow2(n: nat): nat {
    if n == 0 then 1 else 2 * Pow2(n - 1)
  }

  /** Bit `j` of a packed number is whether `bits` names bit `k + j`. */
  lemma {:induction false} PackBits(bits: set<nat>, k: nat, n: nat, j: nat)
    requires j < n
    ensures BitAt(Pack(bits, k, n), j) == if k + j in bits then 1 else 0
    decreases j
  {
    if j > 0 {
      PackBits(bits, k + 1, n - 1, j - 1);
    }
  }

  /** `n` packed bits make a number below 2 to the `n`. */
  lemma {:induction false} PackBound(bits: set<nat>, k: nat, n: nat)
    ensures Pack(bits, k, n) < Pow2(n)
    decreases n
  {
    if n > 0 {
      PackBound(bits, k + 1, n - 1);
    }
  }

  /** No two flags share a bit. */
  lemma FlagBitsMember(flags: set<StateFlag>, f: StateFlag)
    ensures FlagBit(f) in FlagBits(flags) <==> f in flags
  {
    if FlagBit(f) in FlagBits(flags) {
      var g :| g in flags && FlagBit(g) == FlagBit(f);
      assert g == f;
    }
  }

  /** A state value fits in 32 bits. */
  lemma StateValueBound(flags: set<StateFlag>)
    ensures StateValue(flags) < 0x1_0000_0000
  {
    PackBound(FlagBits(flags), 0, 13);
    assert Pow2(13) == 8192;
  }

  /** The bit of a flag is set in the state value exactly when the flag is in the set. */
  lemma StateValueBit(flags: set<StateFlag>, f: StateFlag)
    ensures BitAt(StateValue(flags), FlagBit(f)) == if f in flags then 1 else 0
  {
    PackBits(FlagBits(flags), 0, 13, FlagBit(f));
    FlagBitsMember(flags, f);
  }

  /** Reading the flags of the state value of any set of flags gives back that set. */
  lemma StateFlagsRoundTrip(flags: set<StateFlag>)
    ensures StateFlags(StateValue(flags)) == flags
  {
    var s := StateValue(flags);
    StateValueBound(flags);
    assert s % 0x1_0000_0000 == s;
    forall f ensures HasFlag(s, f) <==> f in flags {
      StateValueBit(flags, f);
    }
  }

  /** Bit 12 of 4097 is set. */
  lemma HighBitOf4097()
    ensures BitAt(4097, 12) == 1
  {
    assert BitAt(4097, 12) == BitAt(2048, 11) == BitAt(1024, 10) == BitAt(512, 9) == BitAt(256, 8);
    assert BitAt(256, 8) == BitAt(128, 7) == BitAt(64, 6) == BitAt(32, 5) == BitAt(16, 4);
    assert BitAt(16, 4) == BitAt(8, 3) == BitAt(4, 2) == BitAt(2, 1) == BitAt(1, 0);
  }

  /** Of bits 0 to 7 of 4097, only bit 0 is set. */
  lemma LowBitsOf4097()
    ensures BitAt(4097, 0) == 1
    ensures BitAt(4097, 1) == 0 && BitAt(4097, 2) == 0 && BitAt(4097, 3) == 0 && BitAt(4097, 4) == 0
    ensures BitAt(4097, 5) == 0 && BitAt(4097, 6) == 0 && BitAt(4097, 7) == 0
  {
    assert BitAt(2048, 1) == BitAt(1024, 0);
    assert BitAt(2048, 2) == BitAt(1024, 1) == BitAt(512, 0);
    assert BitAt(2048, 3) == BitAt(1024, 2) == BitAt(512, 1) == BitAt(256, 0);
    assert BitAt(2048, 4) == BitAt(1024, 3) == BitAt(512, 2) == BitAt(256, 1) == BitAt(128, 0);
    assert BitAt(2048, 5) == BitAt(1024, 4) == BitAt(512, 3) == BitAt(256, 2) == BitAt(128, 1) == BitAt(64, 0);
    assert BitAt(2048, 6) == BitAt(1024, 5) == BitAt(512, 4) == BitAt(256, 3) == BitAt(128, 2) == BitAt(64, 1) == BitAt(32, 0);
  }

  /** The state of the sample reply, 4097, is a file whose CRC matched and that has chapters. */
  lemma SampleStateFlags()
    ensures StateFlags(4097) == {CRCMatch, Chaptered}
  {
    HighBitOf4097();
    LowBitsOf4097();
  }

  /** The flag that marks a given version of a file (versions 2 to 5). */
  function VersionFlag(v: int): StateFlag
    requires 2 <= v <= 5
  {
    if v == 2 then IsV2 else if v == 3 then IsV3 else if v == 4 then IsV4 else IsV5
  }

  /** The file's version: 1 unless a version flag is set, else the highest version flagged. */
  method VersionFromState(state: set<StateFlag>) returns (version: int)
    ensures 1 <= version <= 5
    ensures version == 1 <==> IsV2 !in state && IsV3 !in state && IsV4 !in state && IsV5 !in state
    ensures version > 1 ==> VersionFlag(version) in state
    ensures forall v :: version < v <= 5 ==> VersionFlag(v) !in state
  {
    version := 1;
    if IsV2 in state { version := 2; }
    if IsV3 in state { version := 3; }
    if IsV4 in state { version := 4; }
    if IsV5 in state { version := 5; }
  }

  // ---------------------------------------------------------------------------
  // Quality and source
  // ---------------------------------------------------------------------------

  /** The quality column as the parser compares it: spaces removed, lower-cased. */
  function QualityKey(qualityString: string): string {
    ToLower(RemoveChar(qualityString, ' '))
  }

  /** The table of quality keywords. */
  function QualityOfKey(key: string): Quality {
    if key == "veryhigh" then VeryHigh
    else if key == "high" then High
    else if key == "med" || key == "medium" then Medium
    else if key == "low" then Low
    else if key == "verylow" then VeryLow
    else if key == "corrupted" then Corrupted
    else if key == "eyecancer" then EyeCancer
    else UnknownQuality
  }

  /** `ParseQuality`: the normalised column looked up in the keyword table. */
  function ParseQuality(qualityString: string): Quality {
    QualityOfKey(QualityKey(qualityString))
  }

  /** The source column as the parser compares it: hyphens removed, lower-cased. */
  function SourceKey(sourceString: string): string {
    ToLower(RemoveChar(sourceString, '-'))
  }

  /** The table of source keywords. */
  function SourceOfKey(key: string): Source {
    if key == "tv" then TV
    else if key == "www" then Web
    else if key == "dvd" then DVD
    else if key == "bluray" then BluRay
    else if key == "vhs" then VHS
    else if key == "hkdvd" then HKDVD
    else if key == "hddvd" then HDDVD
    else if key == "hdtv" then HDTV
    else if key == "dtv" then DTV
    else if key == "camcorder" then Camcorder
    else if key == "vcd" then VCD
    else if key == "svcd" then SVCD
    else if key == "ld" then LaserDisc
    else UnknownSource
  }

  /** `ParseSource`: the normalised column looked up in the keyword table. */
  function ParseSource(sourceString: string): Source {
    SourceOfKey(SourceKey(sourceString))
  }

  /** The keyword the table holds for each known quality (Medium also answers to "medium"). */
  function QualityKeyword(q: Quality): string
    requires q != UnknownQuality
  {
    match q
    case VeryHigh => "veryhigh"
    case High => "high"
    case Medium => "med"
    case Low => "low"
    case VeryLow => "verylow"
    case Corrupted => "corrupted"
    case EyeCancer => "eyecancer"
  }

  /** The keyword the table holds for each known source. */
  function SourceKeyword(s: Source): string
    requires s != UnknownSource
  {
    match s
    case TV => "tv"
    case Web => "www"
    case DVD => "dvd"
    case BluRay => "bluray"
    case VHS => "vhs"
    case HKDVD => "hkdvd"
    case HDDVD => "hddvd"
    case HDTV => "hdtv"
    case DTV => "dtv"
    case Camcorder => "camcorder"
    case VCD => "vcd"
    case SVCD => "svcd"
    case LaserDisc => "ld"
  }

  /** Text made of lower-case letters only, as every keyword is. */
  predicate IsLowerWord(s: string) {
    forall i :: 0 <= i < |s| ==> 'a' <= s[i] <= 'z'
  }

  /** A lower-case word is its own comparison key, whichever character is removed. */
  lemma LowerWordIsOwnKey(s: string, c: char)
    requires IsLowerWord(s) && !('a' <= c <= 'z')
    ensures ToLower(RemoveChar(s, c)) == s
  {
    RemoveCharAbsent(s, c);
  }

  /** Every known quality is recovered from its keyword. */
  lemma QualityKeywordsParse(q: Quality)
    requires q != UnknownQuality
    ensures ParseQuality(QualityKeyword(q)) == q
  {
    var k := QualityKeyword(q);
    assert IsLowerWord(k) && QualityOfKey(k) == q by {
      match q
      case VeryHigh =>
      case High =>
      case Medium =>
      case Low =>
      case VeryLow =>
      case Corrupted =>
      case EyeCancer =>
    }
    LowerWordIsOwnKey(k, ' ');
  }

  /** "medium" is a second spelling of Medium. */
  lemma MediumSecondSpelling()
    ensures ParseQuality("medium") == Medium
  {
    LowerWordIsOwnKey("medium", ' ');
  }

  /** Every known source is recovered from its keyword. */
  lemma SourceKeywordsParse(s: Source)
    requires s != UnknownSource
    ensures ParseSource(SourceKeyword(s)) == s
  {
    var k := SourceKeyword(s);
    assert IsLowerWord(k) && SourceOfKey(k) == s by {
      match s
      case TV =>
      case Web =>
      case DVD =>
      case BluRay =>
      case VHS =>
      case HKDVD =>
      case HDDVD =>
      case HDTV =>
      case DTV =>
      case Camcorder =>
      case VCD =>
      case SVCD =>
      case LaserDisc =>
    }
    LowerWordIsOwnKey(k, '-');
  }

  /** A quality string outside the table is Unknown, and Unknown comes from nothing else. */
  lemma UnknownQualityExactly(qualityString: string)
    ensures ParseQuality(qualityString) == UnknownQuality <==>
      QualityKey(qualityString) !in {"veryhigh", "high", "med", "medium", "low", "verylow", "corrupted", "eyecancer"}
  {
  }

  /** A source string outside the table is Unknown, and Unknown comes from nothing else. */
  lemma UnknownSourceExactly(sourceString: string)
    ensures ParseSource(sourceString) == UnknownSource <==>
      SourceKey(sourceString) !in
        {"tv", "www", "dvd", "bluray", "vhs", "hkdvd", "hddvd", "hdtv", "dtv", "camcorder", "vcd", "svcd", "ld"}
  {
  }

  lemma ToLowerAppend(a: string, b: string)
    ensures ToLower(a + b) == ToLower(a) + ToLower(b)
  {
  }

  /** Removing a character that lower-casing leaves alone commutes with lower-casing. */
  lemma {:induction false} RemoveCharToLower(s: string, c: char)
    requires !('A' <= c <= 'Z') && !('a' <= c <= 'z')
    ensures RemoveChar(ToLower(s), c) == ToLower(RemoveChar(s, c))
  {
    if |s| > 0 {
      RemoveCharToLower(s[1..], c);
      assert ToLower(s) == [LowerChar(s[0])] + ToLower(s[1..]);
      ToLowerAppend(if s[0] == c then [] else [s[0]], RemoveChar(s[1..], c));
    }
  }

  /** The comparison key ignores case: lower-casing the text first changes nothing. */
  lemma KeyIgnoresCase(s: string, c: char)
    requires !('A' <= c <= 'Z') && !('a' <= c <= 'z')
    ensures ToLower(RemoveChar(ToLower(s), c)) == ToLower(RemoveChar(s, c))
  {
    RemoveCharToLower(s, c);
    ToLowerIdempotent(RemoveChar(s, c));
  }

  /** The comparison key ignores the removed character: inserting it anywhere changes nothing. */
  lemma KeyIgnoresChar(a: string, b: string, c: char)
    ensures RemoveChar(a + [c] + b, c) == RemoveChar(a + b, c)
  {
    RemoveCharAppend(a + [c], b, c);
    RemoveCharAppend(a, [c], c);
    RemoveCharAppend(a, b, c);
    assert RemoveChar([c], c) == [];
  }

  /** Quality parsing ignores case and spaces: lower-casing the text or inserting a space changes nothing. */
  lemma QualityIgnoresCaseAndSpaces(a: string, b: string)
    ensures ParseQuality(ToLower(a + b)) == ParseQuality(a + b)
    ensures ParseQuality(a + " " + b) == ParseQuality(a + b)
  {
    KeyIgnoresCase(a + b, ' ');
    KeyIgnoresChar(a, b, ' ');
  }

  /** Source parsing ignores case and hyphens: lower-casing the text or inserting a hyphen changes nothing. */
  lemma SourceIgnoresCaseAndHyphens(a: string, b: string)
    ensures ParseSource(ToLower(a + b)) == ParseSource(a + b)
    ensures ParseSource(a + "-" + b) == ParseSource(a + b)
  {
    KeyIgnoresCase(a + b, '-');
    KeyIgnoresChar(a, b, '-');
  }

  // ---------------------------------------------------------------------------
  // Episode cross-references
  // ---------------------------------------------------------------------------

  /** One bucket of two tokens: a cross-reference when the id is an `int` and the percentage a `byte`. */
  function ReadPair(id: string, per: string): (x: Option<EpisodeXRef>)
    ensures x.Some? <==> TryParseInt32(id).Some? && TryParseByte(per).Some?
    ensures x.Some? ==> x.value.episodeID == TryParseInt32(id).value && x.value.percentage == TryParseByte(per).value
    ensures x.Some? ==> 0 <= x.value.percentage <= 255
  {
    match TryParseInt32(id)
    case None => None
    case Some(eid) =>
      match TryParseByte(per)
      case None => None
      case Some(p) => Some(EpisodeXRef(eid, p))
  }

  /**
   * The other-episodes tokens taken two at a time (episode id, percentage); a pair
   * whose id is not an `int` or whose percentage is not a `byte` is dropped. When the
   * token count is odd, the last bucket holds one token: if it is not an `int` it is
   * dropped, else reading the missing percentage throws.
   */
  function PairXRefs(tokens: seq<string>): (r: Result<seq<EpisodeXRef>, ParseError>)
    ensures r.Success? ==> 2 * |r.value| <= |tokens|
    ensures r.Failure? ==> r.error == IncompleteXRefPair
    ensures r.Success? ==> forall i :: 0 <= i < |r.value| ==> 0 <= r.value[i].percentage <= 255
  {
    if |tokens| == 0 then Success([])
    else if |tokens| == 1 then
      if TryParseInt32(tokens[0]).None? then Success([]) else Failure(IncompleteXRefPair)
    else
      var rest := PairXRefs(tokens[2..]);
      var x := ReadPair(tokens[0], tokens[1]);
      if x.None? || rest.Failure? then rest
      else
        var r := [x.value] + rest.value;
        assert forall i :: 0 < i < |r| ==> r[i] == rest.value[i - 1];
        Success(r)
  }

  /** The tokens of a list of (id, percentage) pairs, in order. */
  function Flatten(pairs: seq<(string, string)>): (tokens: seq<string>)
    ensures |tokens| == 2 * |pairs|
  {
    if |pairs| == 0 then [] else [pairs[0].0, pairs[0].1] + Flatten(pairs[1..])
  }

  /** When every pair is well formed, each pair becomes one cross-reference, in order. */
  lemma {:induction false} PairXRefsWellFormed(pairs: seq<(string, string)>)
    requires forall k :: 0 <= k < |pairs| ==> ReadPair(pairs[k].0, pairs[k].1).Some?
    ensures PairXRefs(Flatten(pairs)).Success?
    ensures |PairXRefs(Flatten(pairs)).value| == |pairs|
    ensures forall k :: 0 <= k < |pairs| ==>
      PairXRefs(Flatten(pairs)).value[k] == ReadPair(pairs[k].0, pairs[k].1).value
  {
    if |pairs| > 0 {
      var rest := Flatten(pairs[1..]);
      PairXRefsWellFormed(pairs[1..]);
      PairXRefsCons(pairs[0].0, pairs[0].1, rest);
      assert Flatten(pairs) == [pairs[0].0, pairs[0].1] + rest;
    }
  }

  /** A well-formed first pair is read in front of the cross-references of the tokens after it. */
  lemma PairXRefsCons(id: string, per: string, rest: seq<string>)
    requires ReadPair(id, per).Some? && PairXRefs(rest).Success?
    ensures PairXRefs([id, per] + rest) == Success([ReadPair(id, per).value] + PairXRefs(rest).value)
  {
    assert ([id, per] + rest)[2..] == rest;
  }

  /** A malformed pair anywhere is skipped: the result is that of the other pairs. */
  lemma MalformedPairSkipped(id: string, per: string, rest: seq<string>)
    requires ReadPair(id, per).None?
    ensures PairXRefs([id, per] + rest) == PairXRefs(rest)
  {
    assert ([id, per] + rest)[2..] == rest;
  }

  /** The last of a non-empty list of tokens. */
  function LastToken(tokens: seq<string>): string
    requires |tokens| > 0
  {
    tokens[|tokens| - 1]
  }

  /** The token count is odd and the last token, alone in its bucket, is an `int`. */
  predicate DanglingEpisodeId(tokens: seq<string>) {
    |tokens| % 2 == 1 && TryParseInt32(LastToken(tokens)).Some?
  }

  /** Reading a first pair never throws, so whether reading throws is decided by the tokens after it. */
  lemma PairsThrowStep(tokens: seq<string>)
    requires |tokens| >= 2
    ensures PairXRefs(tokens).Failure? <==> PairXRefs(tokens[2..]).Failure?
  {
  }

  /** Dropping a first pair keeps the parity of the count and, when there is one, the lone last token. */
  lemma DropPairKeepsLast(tokens: seq<string>)
    requires |tokens| >= 2
    ensures |tokens[2..]| % 2 == |tokens| % 2
    ensures |tokens| % 2 == 1 ==> LastToken(tokens[2..]) == LastToken(tokens)
  {
  }

  /** Reading the pairs throws exactly when an episode id is left alone in the last bucket. */
  lemma {:induction false} PairXRefsFailsExactly(tokens: seq<string>)
    ensures PairXRefs(tokens).Failure? <==> DanglingEpisodeId(tokens)
    decreases |tokens|
  {
    if |tokens| == 1 {
      assert LastToken(tokens) == tokens[0];
    } else if |tokens| >= 2 {
      var rest := tokens[2..];
      assert PairXRefs(tokens).Failure? == PairXRefs(rest).Failure? by {
        PairsThrowStep(tokens);
      }
      assert DanglingEpisodeId(tokens) == DanglingEpisodeId(rest) by {
        DropPairKeepsLast(tokens);
      }
      PairXRefsFailsExactly(rest);
    }
  }

  /** An `int` after a whole number of pairs is left alone in the last bucket. */
  lemma IdAfterPairsDangles(tokens: seq<string>, w: string)
    requires |tokens| % 2 == 0 && TryParseInt32(w).Some?
    ensures DanglingEpisodeId(tokens + [w])
  {
    assert LastToken(tokens + [w]) == w;
  }

  /** An episode id left over after any whole number of pairs makes the pair reading throw. */
  lemma IncompleteLastPairThrows(tokens: seq<string>, id: int)
    requires |tokens| % 2 == 0
    requires Int32Min <= id <= Int32Max
    ensures PairXRefs(tokens + [IntToString(id)]) == Failure(IncompleteXRefPair)
  {
    var spelled := IntToString(id);
    IntToStringParses(id, Int32Min, Int32Max);
    IdAfterPairsDangles(tokens, spelled);
    PairXRefsFailsExactly(tokens + [spelled]);
  }

  /** The primary episode at 100%, when the episode column is an `int`. */
  function PrimaryXRef(episodeColumn: string): seq<EpisodeXRef> {
    match TryParseInt32(episodeColumn)
    case Some(eid) => [EpisodeXRef(eid, 100)]
    case None => []
  }

  /**
   * Builds the cross-reference list: the primary episode first, then the other
   * episodes' pairs; an empty other-episodes column leaves the list empty.
   */
  method EpisodeXRefs(episodeColumn: string, otherEpisodes: string) returns (r: Result<seq<EpisodeXRef>, ParseError>)
    ensures otherEpisodes == "" ==> r == Success([])
    ensures otherEpisodes != "" ==>
      match PairXRefs(Split(otherEpisodes, '\''))
      case Failure(e) => r == Failure(e)
      case Success(pairs) => r == Success(PrimaryXRef(episodeColumn) + pairs)
  {
    var xrefs: seq<EpisodeXRef> := [];
    var eid := TryParseInt32(episodeColumn);
    if eid.Some? {
      xrefs := xrefs + [EpisodeXRef(eid.value, 100)];
    }
    assert xrefs == PrimaryXRef(episodeColumn);
    if otherEpisodes != "" {
      var xrefStrings := Split(otherEpisodes, '\'');
      var tempXrefs := PairXRefs(xrefStrings);
      if tempXrefs.Failure? {
        return Failure(tempXrefs.error);
      }
      if |tempXrefs.value| > 0 {
        xrefs := xrefs + tempXrefs.value;
      } else {
        assert xrefs + tempXrefs.value == xrefs;
      }
    } else {
      xrefs := [];
    }
    r := Success(xrefs);
  }

  // ---------------------------------------------------------------------------
  // MyList
  // ---------------------------------------------------------------------------

  /** Milliseconds from 0001-01-01 to the Unix epoch, and the last representable millisecond after it. */
  const MinViewMillis: int := -62_135_596_800_000
  const MaxViewMillis: int := 253_402_300_799_999

  /** `long` multiplication, which wraps around on overflow. */
  function WrapInt64(x: int): (r: int)
    ensures Int64Min <= r <= Int64Max
    ensures Int64Min <= x <= Int64Max ==> r == x
  {
    (x - Int64Min) % 0x1_0000_0000_0000_0000 + Int64Min
  }

  /** Milliseconds since the epoch for a view time in seconds (`viewTime * 1000L`). */
  function ViewMillis(viewTime: int): int {
    WrapInt64(viewTime * 1000)
  }

  /** A view date inside the calendar's range, else adding it to the epoch throws. */
  predicate ViewDateInRange(viewTime: int) {
    MinViewMillis <= ViewMillis(viewTime) <= MaxViewMillis
  }

  /** Parsing throws exactly when both view columns parse and the date falls outside the calendar. */
  predicate ViewDateOk(parts: seq<string>)
    requires |parts| == 18
  {
    TryParseInt32(parts[16]).None? || TryParseInt64(parts[17]).None? || ViewDateInRange(TryParseInt64(parts[17]).value)
  }

  /** MyList columns that can be read without an exception. */
  predicate MyListOk(parts: seq<string>)
    requires |parts| == 18
  {
    TryParseInt32(parts[4]).None?
    || (EnumParse(parts[14]).Some? && EnumParse(parts[15]).Some? && ViewDateOk(parts))
  }

  /**
   * What a MyList record says about its columns: absent exactly when the MyList id
   * column is not an `int`; the view count is 0 when unreadable, and the view date is
   * set exactly when both the count and the time read, as the time in milliseconds.
   */
  predicate MyListDescribes(myList: Option<MyListInfo>, parts: seq<string>)
    requires |parts| == 18
  {
    && (myList.None? <==> TryParseInt32(parts[4]).None?)
    && (myList.Some? ==>
      var info := myList.value;
      && Some(info.myListID) == TryParseInt32(parts[4])
      && Some(info.state) == EnumParse(parts[14])
      && Some(info.fileState) == EnumParse(parts[15])
      && info.viewCount == TryParseInt32(parts[16]).GetOr(0)
      && (info.viewDate.Some? <==> TryParseInt32(parts[16]).Some? && TryParseInt64(parts[17]).Some?)
      && (info.viewDate.Some? ==> info.viewDate.value == ViewMillis(TryParseInt64(parts[17]).value)))
  }

  /** The MyList part of the reply; it throws on an unreadable state or an out-of-range view date. */
  method ParseMyList(parts: seq<string>) returns (r: Result<Option<MyListInfo>, ParseError>)
    requires |parts| == 18
    ensures r.Success? <==> MyListOk(parts)
    ensures r.Failure? ==> r.error == BadEnumValue || r.error == ViewDateOutOfRange
    ensures r.Success? ==> MyListDescribes(r.value, parts)
  {
    var myListID := TryParseInt32(parts[4]);
    if myListID.None? {
      return Success(None);
    }
    var mylistState := EnumParse(parts[14]);
    if mylistState.None? {
      return Failure(BadEnumValue);
    }
    var mylistFileState := EnumParse(parts[15]);
    if mylistFileState.None? {
      return Failure(BadEnumValue);
    }
    var view := ParseView(parts[16], parts[17]);
    if view.Failure? {
      return Failure(view.error);
    }
    var (viewCount, viewDate) := view.value;
    r := Success(Some(MyListInfo(myListID.value, mylistState.value, mylistFileState.value, viewCount, viewDate)));
  }

  /** The view count and view date columns: the date is read only when the count reads. */
  method ParseView(countCol: string, timeCol: string) returns (r: Result<(int, Option<int>), ParseError>)
    ensures r.Success? <==> (TryParseInt32(countCol).None? || TryParseInt64(timeCol).None? || ViewDateInRange(TryParseInt64(timeCol).value))
    ensures r.Failure? ==> r.error == ViewDateOutOfRange
    ensures r.Success? ==> r.value.0 == TryParseInt32(countCol).GetOr(0)
    ensures r.Success? ==> (r.value.1.Some? <==> TryParseInt32(countCol).Some? && TryParseInt64(timeCol).Some?)
    ensures r.Success? && r.value.1.Some? ==> r.value.1.value == ViewMillis(TryParseInt64(timeCol).value)
  {
    var count := TryParseInt32(countCol);
    if count.None? {
      return Success((0, None));
    }
    var viewTime := TryParseInt64(timeCol);
    if viewTime.None? {
      return Success((count.value, None));
    }
    if !ViewDateInRange(viewTime.value) {
      return Failure(ViewDateOutOfRange);
    }
    r := Success((count.value, Some(ViewMillis(viewTime.value))));
  }

  /** Within the calendar's range no wrap-around happens: the date is exactly the seconds times 1000. */
  lemma ViewMillisExact(viewTime: int)
    requires MinViewMillis <= viewTime * 1000 <= MaxViewMillis
    ensures ViewMillis(viewTime) == viewTime * 1000 && ViewDateInRange(viewTime)
  {
  }

  // ---------------------------------------------------------------------------
  // The reply
  // ---------------------------------------------------------------------------

  /** The other-episodes column can be read without an exception. */
  predicate XRefsOk(parts: seq<string>)
    requires |parts| == 18
  {
    parts[5] == "" || PairXRefs(Split(parts[5], '\'')).Success?
  }

  /** The file columns (everything but MyList) can be read without an exception. */
  predicate FileColumnsOk(parts: seq<string>) {
    && |parts| == 18
    && TryParseInt32(parts[0]).Some?
    && TryParseInt32(parts[1]).Some?
    && EnumParse(parts[7]).Some?
    && XRefsOk(parts)
  }

  /** A FILE reply the parser accepts: 18 columns, integer file and anime ids, a readable state, cross-references and MyList data. */
  predicate Accepted(parts: seq<string>) {
    FileColumnsOk(parts) && MyListOk(parts)
  }

  /** What the parsed record says about the file columns of a reply. */
  predicate DescribesFile(info: ResponseGetFile, parts: seq<string>)
    requires FileColumnsOk(parts)
  {
    var flags := StateFlags(EnumParse(parts[7]).value);
    && Some(info.fileID) == TryParseInt32(parts[0])
    && Some(info.animeID) == TryParseInt32(parts[1])
    && info.groupID == TryParseInt32(parts[3])
    && (info.deprecated <==> parts[6] == "1")
    && 1 <= info.version <= 5
    && (info.version == 1 <==> IsV2 !in flags && IsV3 !in flags && IsV4 !in flags && IsV5 !in flags)
    && (info.version > 1 ==> VersionFlag(info.version) in flags)
    && (forall v :: info.version < v <= 5 ==> VersionFlag(v) !in flags)
    && (info.censored == Some(false) <==> Uncensored in flags)
    && (info.censored == Some(true) <==> Uncensored !in flags && Censored in flags)
    && (info.crcMatches == Some(true) <==> CRCMatch in flags)
    && (info.crcMatches == Some(false) <==> CRCMatch !in flags && CRCErr in flags)
    && (info.chaptered <==> Chaptered in flags)
    && info.quality == ParseQuality(parts[8])
    && info.source == ParseSource(parts[9])
    && info.audioLanguages == SplitNonEmpty(parts[10], '\'')
    && info.subtitleLanguages == SplitNonEmpty(parts[11], '\'')
    && info.description == parts[12]
    && info.filename == parts[13]
    && (parts[5] == "" ==> info.episodeIDs == [])
    && (parts[5] != "" ==> info.episodeIDs == PrimaryXRef(parts[2]) + PairXRefs(Split(parts[5], '\'')).value)
  }

  /** What the parsed record says about all columns of an accepted reply. */
  predicate Describes(info: ResponseGetFile, parts: seq<string>)
    requires Accepted(parts)
  {
    DescribesFile(info, parts) && MyListDescribes(info.myList, parts)
  }

  /** `Censored`: false when flagged uncensored, else true when flagged censored, else unknown. */
  function CensoredFromState(state: set<StateFlag>): (censored: Option<bool>)
    ensures censored == Some(false) <==> Uncensored in state
    ensures censored == Some(true) <==> Uncensored !in state && Censored in state
  {
    if Uncensored in state then Some(false) else if Censored in state then Some(true) else None
  }

  /** `CRCMatches`: true when the CRC matched, else false when it was wrong, else unknown. */
  function CrcFromState(state: set<StateFlag>): (crc: Option<bool>)
    ensures crc == Some(true) <==> CRCMatch in state
    ensures crc == Some(false) <==> CRCMatch !in state && CRCErr in state
  {
    if CRCMatch in state then Some(true) else if CRCErr in state then Some(false) else None
  }

  /**
   * The FILE case on its 18 trimmed columns up to, not including, the MyList
   * columns: the ids, group, flags, quality, source, texts, cross-references and
   * languages, in the order the columns are read, each failure surfacing as the
   * exception it would throw. The MyList field is filled in afterwards.
   */
  method ParseFileColumns(parts: seq<string>) returns (r: Result<ResponseGetFile, ParseError>)
    requires |parts| == 18
    ensures r.Success? <==> FileColumnsOk(parts)
    ensures TryParseInt32(parts[0]).None? ==> r == Failure(FileIdNotInt)
    ensures TryParseInt32(parts[0]).Some? && TryParseInt32(parts[1]).None? ==> r == Failure(AnimeIdNotInt)
    ensures r.Success? ==> DescribesFile(r.value, parts) && r.value.myList.None?
  {
    var fid := TryParseInt32(parts[0]);
    if fid.None? {
      return Failure(FileIdNotInt);
    }
    var aid := TryParseInt32(parts[1]);
    if aid.None? {
      return Failure(AnimeIdNotInt);
    }
    var groupID := TryParseInt32(parts[3]);
    var deprecated := parts[6] == "1";
    var stateValue := EnumParse(parts[7]);
    if stateValue.None? {
      return Failure(BadEnumValue);
    }
    var state := StateFlags(stateValue.value);
    var version := VersionFromState(state);
    var censored := CensoredFromState(state);
    var crc := CrcFromState(state);
    var chaptered := Chaptered in state;
    var quality := ParseQuality(parts[8]);
    var source := ParseSource(parts[9]);
    var description := parts[12];
    var filename := parts[13];
    var xrefs := EpisodeXRefs(parts[2], parts[5]);
    if xrefs.Failure? {
      return Failure(xrefs.error);
    }
    var alangs := SplitNonEmpty(parts[10], '\'');
    var slangs := SplitNonEmpty(parts[11], '\'');
    r := Success(ResponseGetFile(fid.value, aid.value, groupID, deprecated, version, censored, crc, chaptered,
                                 description, filename, quality, source, xrefs.value, alangs, slangs, None));
  }

  /**
   * Parses a reply. A FILE reply becomes a record (or throws when malformed), NO SUCH
   * FILE becomes a response without a record, any other code throws.
   */
  method ParseResponse(code: ReturnCode, receivedData: string) returns (r: Result<Response, ParseError>)
    ensures code.OtherCode? ==> r == Failure(UnexpectedResponse)
    ensures code == NoSuchFile ==> r == Success(Response(NoSuchFile, None))
    ensures code == File ==> (r.Success? <==> Accepted(Columns(receivedData)))
    ensures code == File && |Split(receivedData, '|')| != 18 ==> r == Failure(WrongColumnCount)
    ensures code == File && |Split(receivedData, '|')| == 18 ==>
      var parts := Columns(receivedData);
      && (TryParseInt32(parts[0]).None? ==> r == Failure(FileIdNotInt))
      && (TryParseInt32(parts[0]).Some? && TryParseInt32(parts[1]).None? ==> r == Failure(AnimeIdNotInt))
    ensures code == File && r.Success? ==>
      r.value.code == File && r.value.file.Some? && Describes(r.value.file.value, Columns(receivedData))
  {
    match code {
      case File =>
        var parts := Columns(receivedData);
        if |parts| != 18 {
          return Failure(WrongColumnCount);
        }
        var info := ParseFileColumns(parts);
        if info.Failure? {
          return Failure(info.error);
        }
        var myList := ParseMyList(parts);
        if myList.Failure? {
          return Failure(myList.error);
        }
        r := Success(Response(code, Some(info.value.(myList := myList.value))));
      case NoSuchFile =>
        r := Success(Response(code, None));
      case OtherCode(_) =>
        r := Failure(UnexpectedResponse);
    }
  }
}
