/** The dashboard's derived figures in client/src/App.js: the reward tier a
    donation total reaches, what the next tier still needs, which reward
    cards show as unlocked, and the caller's position on the leaderboard. */
module App {
  import opened Collections
  import opened Text
  import opened Ranking
  import Users

  datatype Reward = NoReward | SwagKit | LinkedInShoutout | CertificateGoodies

  /** The tiers in increasing order. */
  function Level(r: Reward): nat {
    match r
    case NoReward => 0
    case SwagKit => 1
    case LinkedInShoutout => 2
    case CertificateGoodies => 3
  }

  /** The amount a reward card asks for. */
  function Threshold(r: Reward): int
    requires r != NoReward
  {
    match r
    case SwagKit => 1000
    case LinkedInShoutout => 2500
    case CertificateGoodies => 5000
  }

  datatype RewardStatus = RewardStatus(reward: Reward, unlocked: bool)

  /** `getRewardStatus`: the highest tier whose threshold the amount reaches,
      the threshold itself included. */
  function GetRewardStatus(amount: int): (s: RewardStatus)
    ensures s.unlocked <==> amount >= 1000
    ensures s.reward == NoReward <==> !s.unlocked
    ensures s.reward != NoReward ==> amount >= Threshold(s.reward)
    ensures forall r :: r != NoReward && amount >= Threshold(r) ==> Level(r) <= Level(s.reward)
  {
    if amount >= 5000 then RewardStatus(CertificateGoodies, true)
    else if amount >= 2500 then RewardStatus(LinkedInShoutout, true)
    else if amount >= 1000 then RewardStatus(SwagKit, true)
    else RewardStatus(NoReward, false)
  }

  /** The icon on a reward card. */
  function CardIcon(r: Reward): char
    requires r != NoReward
  {
    match r
    case SwagKit => '\U{1F389}'
    case LinkedInShoutout => '\U{1F680}'
    case CertificateGoodies => '\U{1F451}'
  }

  /** The title on a reward card. */
  function CardTitle(r: Reward): string
    requires r != NoReward
  {
    match r
    case SwagKit => "Free Swag Kit"
    case LinkedInShoutout => "LinkedIn Shoutout"
    case CertificateGoodies => "Certificate + Goodies"
  }

  /** The `text` shown for a status: a reached tier is announced with the
      icon and the title of its reward card. */
  function StatusText(s: RewardStatus): (t: string)
    ensures s.reward == NoReward ==> t == "Keep going to unlock rewards!"
    ensures s.reward != NoReward ==>
      |t| >= 2 && t[0] == CardIcon(s.reward) && t[1] == ' ' && t[2..] == CardTitle(s.reward)
  {
    if s.reward == NoReward then "Keep going to unlock rewards!"
    else [CardIcon(s.reward), ' '] + CardTitle(s.reward)
  }

  /** Different tiers are announced differently. */
  lemma StatusTextDistinct(a: RewardStatus, b: RewardStatus)
    requires a.reward != b.reward
    ensures StatusText(a) != StatusText(b)
  {
  }

  /** A larger total never gives a lower tier. */
  lemma RewardMonotone(a: int, b: int)
    requires a <= b
    ensures Level(GetRewardStatus(a).reward) <= Level(GetRewardStatus(b).reward)
  {
    var ra := GetRewardStatus(a).reward;
    if ra != NoReward {
      assert b >= Threshold(ra);
    }
  }

  /** Each threshold already unlocks its tier; one less does not. */
  lemma ThresholdsInclusive()
    ensures GetRewardStatus(1000).reward == SwagKit && GetRewardStatus(999).reward == NoReward
    ensures GetRewardStatus(2500).reward == LinkedInShoutout && GetRewardStatus(2499).reward == SwagKit
    ensures GetRewardStatus(5000).reward == CertificateGoodies && GetRewardStatus(4999).reward == LinkedInShoutout
  {
  }

  datatype NextReward = Needs(gap: nat, reward: Reward) | AllUnlocked

  /** `getNextReward`: the nearest tier still above the amount and what is
      missing to reach it. */
  function GetNextReward(amount: int): (n: NextReward)
    ensures n.AllUnlocked? <==> amount >= 5000
    ensures n.Needs? ==> n.reward != NoReward && n.gap > 0 && n.gap == Threshold(n.reward) - amount
    ensures n.Needs? ==> forall r :: r != NoReward && Threshold(r) > amount ==> Threshold(n.reward) <= Threshold(r)
  {
    if amount < 1000 then Needs(1000 - amount, SwagKit)
    else if amount < 2500 then Needs(2500 - amount, LinkedInShoutout)
    else if amount < 5000 then Needs(5000 - amount, CertificateGoodies)
    else AllUnlocked
  }

  function RewardName(r: Reward): string {
    match r
    case SwagKit => "Swag Kit"
    case LinkedInShoutout => "LinkedIn Shoutout"
    case CertificateGoodies => "Certificate + Goodies"
    case NoReward => ""
  }

  /** The line shown under the status. */
  function NextRewardText(n: NextReward): (t: string)
    ensures n.AllUnlocked? ==> t == "All rewards unlocked! \U{1F389}"
    ensures n.Needs? ==> var tail := " more for " + RewardName(n.reward);
      && |t| == 1 + |Decimal(n.gap)| + |tail|
      && t[0] == '₹' && t[1..1 + |Decimal(n.gap)|] == Decimal(n.gap)
      && t[|t| - |tail|..] == tail
  {
    match n
    case Needs(gap, r) =>
      var tail := " more for " + RewardName(r);
      var t := "₹" + (Decimal(gap) + tail);
      assert t[1..1 + |Decimal(gap)|] == Decimal(gap);
      assert t[|t| - |tail|..] == tail;
      t
    case AllUnlocked => "All rewards unlocked! \U{1F389}"
  }

  /** The gap printed in the hint reads back as the amount still missing. */
  lemma NextRewardTextShowsGap(amount: int)
    requires amount < 5000
    ensures var n := GetNextReward(amount);
      var t := NextRewardText(n);
      var d := Decimal(n.gap);
      && t[..1 + |d|] == "₹" + d
      && ParseDecimal(t[1..1 + |d|]) == n.gap
      && |t| == 1 + |d| + |" more for " + RewardName(n.reward)|
  {
    var n := GetNextReward(amount);
    var d := Decimal(n.gap);
    var t := NextRewardText(n);
    assert t == "₹" + d + (" more for " + RewardName(n.reward));
    assert t[1..1 + |d|] == d;
    ParseDecimalOfDecimal(n.gap);
  }

  /** The hint names the first tier exactly while no reward is unlocked, and
      otherwise the tier right above the current one. */
  lemma NextRewardFollowsStatus(amount: int)
    ensures (GetNextReward(amount).Needs? && GetNextReward(amount).reward == SwagKit) <==>
      !GetRewardStatus(amount).unlocked
    ensures GetNextReward(amount).Needs? ==>
      Level(GetNextReward(amount).reward) == Level(GetRewardStatus(amount).reward) + 1
  {
  }

  /** The reward card `r` shows "Unlocked!" when the total reaches its
      threshold: exactly the tiers up to the one the status reports. */
  function CardUnlocked(amount: int, r: Reward): (b: bool)
    requires r != NoReward
    ensures b <==> Level(r) <= Level(GetRewardStatus(amount).reward)
    ensures b ==> GetRewardStatus(amount).unlocked
  {
    amount >= Threshold(r)
  }

  /** `leaderboard.findIndex(u => u.referralCode === code)`: -1 when no entry matches. */
  function FindIndex(board: seq<Entry>, code: string): (r: int)
    ensures -1 <= r < |board|
    ensures r == -1 <==> forall k :: 0 <= k < |board| ==> board[k].referralCode != code
    ensures r >= 0 ==> board[r].referralCode == code && forall k :: 0 <= k < r ==> board[k].referralCode != code
  {
    match IndexWhere(board, (e: Entry) => e.referralCode == code)
    case None => -1
    case Some(i) => i
  }

  /** `userRank`: the 1-based position of the first entry carrying the
      caller's code, 0 when the caller is not listed. */
  function UserRank(board: seq<Entry>, code: string): (r: nat)
    ensures r <= |board|
    ensures r == 0 <==> forall k :: 0 <= k < |board| ==> board[k].referralCode != code
    ensures r > 0 ==> board[r - 1].referralCode == code
    ensures r > 0 ==> forall k :: 0 <= k < r - 1 ==> board[k].referralCode != code
  {
    FindIndex(board, code) + 1
  }

  /** `#{userRank || 'N/A'}`. */
  function RankLabel(rank: nat): (s: string)
    ensures |s| >= 2 && s[0] == '#'
    ensures rank == 0 ==> s == "#N/A"
    ensures rank > 0 ==> AllDigits(s[1..]) && ParseDecimal(s[1..]) == rank
    ensures rank > 0 ==> s[1] != '0'
  {
    if rank == 0 then "#N/A"
    else
      ParseDecimalOfDecimal(rank);
      assert ("#" + Decimal(rank))[1..] == Decimal(rank);
      "#" + Decimal(rank)
  }

  /** On a board the server ranked, the position the client computes is the
      rank the server attached to that entry; it is found exactly when one of
      the listed users holds the code. */
  lemma UserRankIsServerRank(sel: seq<Users.User>, code: string)
    ensures var r := UserRank(Rank(sel), code);
      && (r > 0 ==> Rank(sel)[r - 1].rank == r && sel[r - 1].referralCode == code)
      && (r == 0 <==> forall k :: 0 <= k < |sel| ==> sel[k].referralCode != code)
  {
    var board := Rank(sel);
    assert forall k :: 0 <= k < |sel| ==> board[k].referralCode == sel[k].referralCode;
  }
}
