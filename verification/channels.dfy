/**
 * The chat channels a message can be sent to (the C# enum `ChatChannel`) and
 * the chat command that selects each of them (`Plugin.GetChannelPrefix`).
 */
module Channels {
  import opened Wrappers

  /** The 23 declared members of the enum, in declaration order, plus
      `Undeclared(value)`: a C# enum variable can hold any integer (for instance
      one read back from a stored configuration), and such a value matches no
      declared member. */
  datatype ChatChannel =
    | Say | Shout | Yell | Party | Alliance | FreeCompany
    | Linkshell1 | Linkshell2 | Linkshell3 | Linkshell4
    | Linkshell5 | Linkshell6 | Linkshell7 | Linkshell8
    | CrossWorldLinkshell1 | CrossWorldLinkshell2 | CrossWorldLinkshell3 | CrossWorldLinkshell4
    | CrossWorldLinkshell5 | CrossWorldLinkshell6 | CrossWorldLinkshell7 | CrossWorldLinkshell8
    | YellowText
    | Undeclared(value: int)

  /** The declared members in declaration order: member `i` has the underlying value `i`. */
  const Declared: seq<ChatChannel> := [
    Say, Shout, Yell, Party, Alliance, FreeCompany,
    Linkshell1, Linkshell2, Linkshell3, Linkshell4,
    Linkshell5, Linkshell6, Linkshell7, Linkshell8,
    CrossWorldLinkshell1, CrossWorldLinkshell2, CrossWorldLinkshell3, CrossWorldLinkshell4,
    CrossWorldLinkshell5, CrossWorldLinkshell6, CrossWorldLinkshell7, CrossWorldLinkshell8,
    YellowText
  ]

  /** An `Undeclared` value is only used for integers no declared member has. */
  predicate WellFormed(c: ChatChannel) {
    c.Undeclared? ==> !(0 <= c.value < |Declared|)
  }

  /** The values a C# `ChatChannel` variable can hold: one per integer. */
  type Channel = c: ChatChannel | WellFormed(c) witness Say

  /** The integer a channel is stored as. */
  function ValueOf(c: ChatChannel): int {
    match c
    case Say => 0
    case Shout => 1
    case Yell => 2
    case Party => 3
    case Alliance => 4
    case FreeCompany => 5
    case Linkshell1 => 6
    case Linkshell2 => 7
    case Linkshell3 => 8
    case Linkshell4 => 9
    case Linkshell5 => 10
    case Linkshell6 => 11
    case Linkshell7 => 12
    case Linkshell8 => 13
    case CrossWorldLinkshell1 => 14
    case CrossWorldLinkshell2 => 15
    case CrossWorldLinkshell3 => 16
    case CrossWorldLinkshell4 => 17
    case CrossWorldLinkshell5 => 18
    case CrossWorldLinkshell6 => 19
    case CrossWorldLinkshell7 => 20
    case CrossWorldLinkshell8 => 21
    case YellowText => 22
    case Undeclared(v) => v
  }

  /** The channel an integer stands for (a cast from `int` to the enum): the declared
      member with that value, or an undeclared value carrying it. It is stored back as the
      same integer. */
  function ChannelOf(v: int): (c: Channel)
    ensures ValueOf(c) == v
  {
    if 0 <= v < |Declared| then
      assert ValueOf(Declared[v]) == v;
      Declared[v]
    else Undeclared(v)
  }

  /** The enum's implicit numbering is a bijection: storing a channel as its integer and
      reading it back gives the same channel. */
  lemma {:induction false} ChannelRoundTrip(c: Channel)
    ensures ChannelOf(ValueOf(c)) == c
  {
    if !c.Undeclared? {
      assert Declared[ValueOf(c)] == c;
    }
  }

  /** `GetChannelPrefix`: the chat command that sends to channel `c`. `YellowText` and any
      undeclared value map to the empty string, which means "print locally" rather than send.
      Every other channel has a command of the form "/" followed by letters and digits. */
  function GetChannelPrefix(c: ChatChannel): (p: string)
    ensures p == [] <==> (c == YellowText || c.Undeclared?)
    ensures p != [] ==> 2 <= |p| <= 4 && p[0] == '/' && forall i :: 0 <= i < |p| ==> p[i] != ' '
  {
    match c
    case Say => "/s"
    case Shout => "/sh"
    case Yell => "/y"
    case Party => "/p"
    case Alliance => "/a"
    case FreeCompany => "/fc"
    case Linkshell1 => "/l1"
    case Linkshell2 => "/l2"
    case Linkshell3 => "/l3"
    case Linkshell4 => "/l4"
    case Linkshell5 => "/l5"
    case Linkshell6 => "/l6"
    case Linkshell7 => "/l7"
    case Linkshell8 => "/l8"
    case CrossWorldLinkshell1 => "/cl1"
    case CrossWorldLinkshell2 => "/cl2"
    case CrossWorldLinkshell3 => "/cl3"
    case CrossWorldLinkshell4 => "/cl4"
    case CrossWorldLinkshell5 => "/cl5"
    case CrossWorldLinkshell6 => "/cl6"
    case CrossWorldLinkshell7 => "/cl7"
    case CrossWorldLinkshell8 => "/cl8"
    case YellowText => ""
    case Undeclared(_) => ""
  }

  /** Reads a chat command prefix back into the channel it selects: "/" and a channel
      mnemonic, where the linkshell mnemonics "l" and "cl" take a digit 1 to 8. */
  function ParsePrefix(p: string): Option<ChatChannel> {
    if |p| < 2 || p[0] != '/' then None
    else if |p| == 2 then
      if p[1] == 's' then Some(Say)
      else if p[1] == 'y' then Some(Yell)
      else if p[1] == 'p' then Some(Party)
      else if p[1] == 'a' then Some(Alliance)
      else None
    else if |p| == 3 then
      if p[1] == 's' && p[2] == 'h' then Some(Shout)
      else if p[1] == 'f' && p[2] == 'c' then Some(FreeCompany)
      else if p[1] == 'l' && '1' <= p[2] <= '8' then Some(Declared[5 + Digit(p[2])])
      else None
    else if |p| == 4 && p[1] == 'c' && p[2] == 'l' && '1' <= p[3] <= '8' then
      Some(Declared[13 + Digit(p[3])])
    else None
  }

  /** The value of a decimal digit 1 to 8. */
  function Digit(d: char): (n: int)
    requires '1' <= d <= '8'
    ensures 1 <= n <= 8
  {
    d as int - '0' as int
  }

  /** Every non-empty prefix in the table reads back as its own channel. */
  lemma PrefixParses(c: ChatChannel)
    ensures GetChannelPrefix(c) != [] ==> ParsePrefix(GetChannelPrefix(c)) == Some(c)
  {
  }

  lemma {:induction false} LinkshellEntry(d: char)
    requires '1' <= d <= '8'
    ensures GetChannelPrefix(Declared[5 + Digit(d)]) == ['/', 'l', d]
    ensures GetChannelPrefix(Declared[13 + Digit(d)]) == ['/', 'c', 'l', d]
  {
    if d == '1' {} else if d == '2' {} else if d == '3' {} else if d == '4' {}
    else if d == '5' {} else if d == '6' {} else if d == '7' {} else {}
  }

  /** Every prefix the parser accepts is the table entry of the channel it yields. */
  lemma {:induction false} ParsedPrefixInTable(p: string)
    ensures ParsePrefix(p).Some? ==> GetChannelPrefix(ParsePrefix(p).value) == p
  {
    if ParsePrefix(p).Some? {
      if |p| == 2 {
        assert p == [p[0], p[1]];
      } else if |p| == 3 {
        assert p == [p[0], p[1], p[2]];
        if p[1] == 'l' {
          LinkshellEntry(p[2]);
        }
      } else {
        assert p == [p[0], p[1], p[2], p[3]];
        LinkshellEntry(p[3]);
      }
    }
  }

  /** The 22 non-empty prefixes are pairwise distinct: a prefix identifies its channel. */
  lemma {:induction false} PrefixesDistinct(a: ChatChannel, b: ChatChannel)
    requires GetChannelPrefix(a) == GetChannelPrefix(b) != []
    ensures a == b
  {
    PrefixParses(a);
    PrefixParses(b);
  }
}
