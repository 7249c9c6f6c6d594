/**
 * `do_ls`: choose between the single-group query and the bulk query, then
 * print a header line and, for every record, a fixed-width data row and a
 * bracketed member line.  The library's answers are inputs and the printed
 * text is the returned sequence of lines (each without its newline).
 */
module Listing {
  import opened Wrappers
  import opened Format
  import opened EventStates
  import Arguments

  /** Capacity of the record buffer handed to the bulk query. */
  const MAX_GROUPS := 64

  /* Field widths of the table. */
  const TYPE_WIDTH := 16
  const LEVEL_WIDTH := 5
  const NAME_WIDTH := 32
  const ID_WIDTH := 8
  const STATE_WIDTH := 12

  /** One group as the membership library reports it. */
  datatype GroupData = GroupData(
    clientName: string,
    level: int32,
    name: string,
    id: uint32,
    eventState: int32,
    eventNodeid: int32,
    memberCount: int32,
    members: seq<int32>)
  {
    /** The library never reports more members than the record holds. */
    predicate Valid() {
      memberCount as int <= |members|
    }

    /** The members the listing prints: the first `memberCount`, none if it is not positive. */
    function Listed(): (r: seq<int32>)
      requires Valid()
      ensures |r| == if memberCount < 0 then 0 else memberCount as int
      ensures r <= members
    {
      members[..if memberCount < 0 then 0 else memberCount]
    }
  }

  /** A record as the library fills it. */
  type Group = g: GroupData | g.Valid() witness GroupData("", 0, "", 0, 0, 0, 0, [])

  /** A record slot after `memset(&data, 0, sizeof(data))`. */
  const ZERO_GROUP: Group := GroupData("", 0, "", 0, 0, 0, 0, [])

  /** Which library call `do_ls` makes. */
  datatype Query =
    | Single(levelArg: nat, nameArg: nat)   // group_get_group(atoi(argv[levelArg]), argv[nameArg], data)
    | Bulk(max: nat)                        // group_get_groups(max, &count, data)

  function SelectQuery(argc: nat, optInd: nat): Query {
    if optInd != 0 && optInd < argc then Single(optInd, optInd + 1) else Bulk(MAX_GROUPS)
  }

  /**
   * The records printed: the single query always prints one slot (the zero
   * record if the lookup stored nothing); the bulk query prints what it stored.
   */
  function Records(q: Query, lookup: Option<Group>, groups: seq<Group>): seq<Group> {
    match q
    case Single(_, _) => [lookup.GetOr(ZERO_GROUP)]
    case Bulk(_) => groups
  }

  /** The header line: each label left-justified in its field, fields separated by a space. */
  function Header(): string {
    (PadRight("type", TYPE_WIDTH) + " ") + (PadRight("level", LEVEL_WIDTH) + " ")
    + (PadRight("name", NAME_WIDTH) + " ") + (PadRight("id", ID_WIDTH) + " ")
    + PadRight("state", STATE_WIDTH)
  }

  /** The data row of one record, laid out like the header. */
  function Row(g: Group): string {
    (PadRight(g.clientName, TYPE_WIDTH) + " ") + (PadRight(Decimal(g.level), LEVEL_WIDTH) + " ")
    + (PadRight(g.name, NAME_WIDTH) + " ") + (HexField(g.id, ID_WIDTH) + " ")
    + PadRight(StateStr(g.eventState, g.eventNodeid), STATE_WIDTH)
  }

  /** Member ids in decimal, separated by single spaces. */
  function JoinMembers(xs: seq<int32>): string {
    if xs == [] then ""
    else if |xs| == 1 then Decimal(xs[0])
    else JoinMembers(xs[..|xs| - 1]) + " " + Decimal(xs[|xs| - 1])
  }

  /** Printing one more member adds it after a space, or alone if it is the first. */
  lemma JoinMembersStep(m: seq<int32>, j: nat)
    requires j < |m|
    ensures JoinMembers(m[..j + 1])
         == if j == 0 then Decimal(m[0]) else JoinMembers(m[..j]) + " " + Decimal(m[j])
  {
    assert m[..j + 1][..j] == m[..j];
  }

  function MemberLine(g: Group): string {
    "[" + JoinMembers(g.Listed()) + "]"
  }

  /** For each item in order, the line `first` gives it followed by the line `second` gives it. */
  function PairedLines<T>(xs: seq<T>, first: T -> string, second: T -> string): seq<string> {
    if xs == [] then []
    else PairedLines(xs[..|xs| - 1], first, second) + [first(xs[|xs| - 1]), second(xs[|xs| - 1])]
  }

  lemma {:induction false} PairedLinesShape<T>(xs: seq<T>, first: T -> string, second: T -> string)
    ensures |PairedLines(xs, first, second)| == 2 * |xs|
    ensures forall i :: 0 <= i < |xs| ==>
              PairedLines(xs, first, second)[2 * i] == first(xs[i])
              && PairedLines(xs, first, second)[2 * i + 1] == second(xs[i])
  {
    if xs != [] {
      var init := xs[..|xs| - 1];
      PairedLinesShape(init, first, second);
      forall i | 0 <= i < |xs|
        ensures PairedLines(xs, first, second)[2 * i] == first(xs[i])
        ensures PairedLines(xs, first, second)[2 * i + 1] == second(xs[i])
      {
        if i < |init| {
          assert init[i] == xs[i];
        }
      }
    }
  }

  /** Taking one more item adds its two lines. */
  lemma PairedLinesStep<T>(xs: seq<T>, i: nat, first: T -> string, second: T -> string)
    requires i < |xs|
    ensures PairedLines(xs[..i + 1], first, second)
         == PairedLines(xs[..i], first, second) + [first(xs[i]), second(xs[i])]
  {
    assert xs[..i + 1][..i] == xs[..i];
  }

  /** Everything `do_ls` prints for the given records. */
  function Listing(rs: seq<Group>): seq<string> {
    [Header()] + PairedLines(rs, Row, MemberLine)
  }

  /** The lines of record `i`: its row at `1 + 2 * i`, its member line right after. */
  lemma ListingAt(rs: seq<Group>, i: nat)
    requires i < |rs|
    ensures |Listing(rs)| == 1 + 2 * |rs|
    ensures Listing(rs)[1 + 2 * i] == Row(rs[i]) && Listing(rs)[2 + 2 * i] == MemberLine(rs[i])
  {
    PairedLinesShape(rs, Row, MemberLine);
    var p := PairedLines(rs, Row, MemberLine);
    assert p[2 * i] == Row(rs[i]) && p[2 * i + 1] == MemberLine(rs[i]);
    assert Listing(rs)[1..] == p;
  }

  /** One header line, then for every record its row and its member line. */
  lemma ListingShape(rs: seq<Group>)
    ensures |Listing(rs)| == 1 + 2 * |rs|
    ensures Listing(rs)[0] == Header()
    ensures forall i :: 0 <= i < |rs| ==>
              Listing(rs)[1 + 2 * i] == Row(rs[i]) && Listing(rs)[2 + 2 * i] == MemberLine(rs[i])
  {
    PairedLinesShape(rs, Row, MemberLine);
    forall i | 0 <= i < |rs|
      ensures Listing(rs)[1 + 2 * i] == Row(rs[i]) && Listing(rs)[2 + 2 * i] == MemberLine(rs[i])
    {
      ListingAt(rs, i);
    }
  }

  /**
   * What `do_ls` prints on each path: after the sub-command's token with at
   * least one argument following it, the one record of the single query
   * (the zeroed slot if the lookup stored nothing); otherwise every record
   * of the bulk query, in the order it returned them.
   */
  lemma QueryListing(argc: nat, optInd: nat, lookup: Option<Group>, groups: seq<Group>)
    ensures optInd != 0 && optInd < argc ==>
              var g, l := lookup.GetOr(ZERO_GROUP), Listing(Records(SelectQuery(argc, optInd), lookup, groups));
              |l| == 3 && l[0] == Header() && l[1] == Row(g) && l[2] == MemberLine(g)
    ensures !(optInd != 0 && optInd < argc) ==>
              Records(SelectQuery(argc, optInd), lookup, groups) == groups
  {
    if optInd != 0 && optInd < argc {
      ListingAt([lookup.GetOr(ZERO_GROUP)], 0);
    }
  }

  /** The inner loop of `do_ls`: `"["`, the listed members separated by single spaces, `"]"`. */
  method FormatMemberLine(g: Group) returns (line: string)
    ensures line == MemberLine(g)
  {
    line := "[";
    var j := 0;
    while j < g.memberCount as int
      invariant 0 <= j && (j <= g.memberCount as int || j == 0)
      invariant line == "[" + JoinMembers(g.members[..j])
    {
      var d := Decimal(g.members[j]);
      JoinMembersStep(g.members, j);
      if j != 0 {
        line := line + " ";
        Regroup("[", JoinMembers(g.members[..j]), " ", d);
      }
      line := line + d;
      j := j + 1;
    }
    line := line + "]";
    assert g.members[..j] == g.Listed();
  }

  lemma AppendTwo<T>(h: seq<T>, p: seq<T>, x: T, y: T)
    ensures h + p + [x] + [y] == h + (p + [x, y])
  {
  }

  /** `do_ls` with the library's answers as inputs: `lookup` for the single query, `groups` for the bulk one. */
  method DoLs(argc: nat, optInd: nat, lookup: Option<Group>, groups: seq<Group>)
    returns (lines: seq<string>)
    requires |groups| <= MAX_GROUPS
    ensures lines == Listing(Records(SelectQuery(argc, optInd), lookup, groups))
  {
    var data: seq<Group>;
    var count: nat;
    if optInd != 0 && optInd < argc {
      data := [lookup.GetOr(ZERO_GROUP)];
      count := 1;
    } else {
      data := groups;
      count := |groups|;
    }

    lines := [Header()];
    for i := 0 to count
      invariant lines == [Header()] + PairedLines(data[..i], Row, MemberLine)
    {
      var g := data[i];
      ghost var before := lines;
      lines := lines + [Row(g)];

      var line := FormatMemberLine(g);
      lines := lines + [line];
      AppendTwo([Header()], PairedLines(data[..i], Row, MemberLine), Row(g), line);
      PairedLinesStep(data, i, Row, MemberLine);
    }
    assert data[..count] == data;
  }

  /** Reads space-separated decimal numbers, as `JoinMembers` writes them. */
  function ParseMembers(s: string): Option<seq<int>> {
    if s == [] then Some([])
    else match LastSpace(s)
      case None =>
        (match ParseDecimal(s)
         case Some(n) => Some([n])
         case None => None)
      case Some(k) =>
        if k == 0 then None
        else match (ParseMembers(s[..k]), ParseDecimal(s[k + 1..]))
          case (Some(xs), Some(n)) => Some(xs + [n])
          case _ => None
  }

  /** Reads a member line back into the member ids it shows. */
  function ParseMemberLine(line: string): Option<seq<int>> {
    if 2 <= |line| && line[0] == '[' && line[|line| - 1] == ']' then ParseMembers(line[1..|line| - 1])
    else None
  }

  lemma {:induction false} JoinMembersRoundTrip(xs: seq<int32>)
    ensures xs != [] ==> JoinMembers(xs) != []
    ensures ParseMembers(JoinMembers(xs)) == Some(xs)
    decreases |xs|
  {
    if |xs| == 1 {
      DecimalRoundTrip(xs[0]);
      assert [xs[0]] == xs;
    } else if |xs| > 1 {
      var init, last := xs[..|xs| - 1], xs[|xs| - 1];
      JoinMembersRoundTrip(init);
      DecimalRoundTrip(last);
      var a, d := JoinMembers(init), Decimal(last);
      var s := a + " " + d;
      assert JoinMembers(xs) == s;
      LastSpaceAfter(a + " ", d);
      Parts(a, " ", d);
      assert ParseMembers(s) == Some(init + [last]);
      assert init + [last] == xs;
    }
  }

  /** A member line shows exactly the listed members, in their stored order. */
  lemma MemberLineRoundTrip(g: Group)
    ensures ParseMemberLine(MemberLine(g)) == Some(g.Listed())
  {
    JoinMembersRoundTrip(g.Listed());
    var line := MemberLine(g);
    assert line[1..|line| - 1] == JoinMembers(g.Listed());
  }

  /** A group without members shows `[]`, and only such a group does. */
  lemma MemberLineEmpty(g: Group)
    ensures MemberLine(g) == "[]" <==> g.memberCount <= 0
  {
    JoinMembersRoundTrip(g.Listed());
    assert MemberLine(g) == "[]" <==> JoinMembers(g.Listed()) == [];
  }

  /* Column offsets shared by the header and the rows. */
  const LEVEL_COLUMN := TYPE_WIDTH + 1
  const NAME_COLUMN := LEVEL_COLUMN + LEVEL_WIDTH + 1
  const ID_COLUMN := NAME_COLUMN + NAME_WIDTH + 1
  const STATE_COLUMN := ID_COLUMN + ID_WIDTH + 1

  /** A record whose fields fit their columns: type, level and name are not wider than their fields. */
  predicate FitsColumns(g: GroupData) {
    |g.clientName| <= TYPE_WIDTH && |Decimal(g.level)| <= LEVEL_WIDTH && |g.name| <= NAME_WIDTH
  }

  /** The five cells of a line, each ending where the next begins. */
  lemma Cells(c1: string, c2: string, c3: string, c4: string, c5: string)
    requires |c1| == LEVEL_COLUMN && |c2| == NAME_COLUMN - LEVEL_COLUMN
    requires |c3| == ID_COLUMN - NAME_COLUMN && |c4| == STATE_COLUMN - ID_COLUMN
    ensures (c1 + c2 + c3 + c4 + c5)[..LEVEL_COLUMN] == c1
    ensures (c1 + c2 + c3 + c4 + c5)[LEVEL_COLUMN..NAME_COLUMN] == c2
    ensures (c1 + c2 + c3 + c4 + c5)[NAME_COLUMN..ID_COLUMN] == c3
    ensures (c1 + c2 + c3 + c4 + c5)[ID_COLUMN..STATE_COLUMN] == c4
    ensures (c1 + c2 + c3 + c4 + c5)[STATE_COLUMN..] == c5
  {
  }

  /** The header labels start at the column offsets, each padded to its field's width. */
  lemma HeaderColumns()
    ensures Header()[..LEVEL_COLUMN] == PadRight("type", TYPE_WIDTH) + " "
    ensures Header()[LEVEL_COLUMN..NAME_COLUMN] == PadRight("level", LEVEL_WIDTH) + " "
    ensures Header()[NAME_COLUMN..ID_COLUMN] == PadRight("name", NAME_WIDTH) + " "
    ensures Header()[ID_COLUMN..STATE_COLUMN] == PadRight("id", ID_WIDTH) + " "
    ensures Header()[STATE_COLUMN..] == PadRight("state", STATE_WIDTH)
  {
    Cells(PadRight("type", TYPE_WIDTH) + " ", PadRight("level", LEVEL_WIDTH) + " ",
          PadRight("name", NAME_WIDTH) + " ", PadRight("id", ID_WIDTH) + " ",
          PadRight("state", STATE_WIDTH));
  }

  /**
   * The fields of a row whose type, level and name fit their widths start at
   * the header's column offsets; the id is always eight hex digits.
   */
  lemma RowColumns(g: Group)
    requires FitsColumns(g)
    ensures Row(g)[..LEVEL_COLUMN] == PadRight(g.clientName, TYPE_WIDTH) + " "
    ensures Row(g)[LEVEL_COLUMN..NAME_COLUMN] == PadRight(Decimal(g.level), LEVEL_WIDTH) + " "
    ensures Row(g)[NAME_COLUMN..ID_COLUMN] == PadRight(g.name, NAME_WIDTH) + " "
    ensures Row(g)[ID_COLUMN..STATE_COLUMN] == HexField(g.id, ID_WIDTH) + " "
    ensures Row(g)[STATE_COLUMN..] == PadRight(StateStr(g.eventState, g.eventNodeid), STATE_WIDTH)
  {
    HexFieldRoundTrip(g.id);
    Cells(PadRight(g.clientName, TYPE_WIDTH) + " ", PadRight(Decimal(g.level), LEVEL_WIDTH) + " ",
          PadRight(g.name, NAME_WIDTH) + " ", HexField(g.id, ID_WIDTH) + " ",
          PadRight(StateStr(g.eventState, g.eventNodeid), STATE_WIDTH));
  }

  /**
   * From the command line to the query: the single-group query is made
   * exactly when the listing's sub-command token is followed by at least one
   * more argument; with no sub-command token the bulk query is made.
   */
  lemma QueryOfArguments(argv: seq<string>, optind: nat)
    ensures var d := Arguments.Decode(argv, optind);
            SelectQuery(|argv|, d.optInd).Single?
            <==> exists k :: Arguments.FirstCommand(argv, optind) == Some(k) && k + 1 < |argv|
  {
    match Arguments.FirstCommand(argv, optind)
    case None =>
    case Some(k) =>
      assert Arguments.FirstCommand(argv, optind) == Some(k) && (k + 1 < |argv| ==> true);
  }
}
