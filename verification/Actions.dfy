/** Transaction actions with their labels (`transaction.rs`) and gas (`gas.rs`). */
module Actions {
  import opened Basics

  /** Actions whose fields play no part here. */
  datatype ActionKind =
    | CreateAssetClass
    | MintAsset
    | TransferAsset
    | BurnAsset
    | CreateListing
    | CancelListing
    | BuyListing
    | CreateProfile
    | AddAchievement
    | UpdateReputation
    | RegisterValidator
    | UndelegateStake
    | RegisterAttestor
    | SubmitMatchResult
    | SubmitProposal
    | VoteProposal
    | ExecuteProposal
    | CreateSession
    | RevokeSession
    | ListForRent
    | RentAsset
    | ReturnRental
    | ClaimExpiredRental
    | CancelRentalListing
    | CreateGuild
    | JoinGuild
    | LeaveGuild
    | GuildDeposit
    | GuildWithdraw
    | GuildPromote
    | GuildKick
    | CreateTournament
    | JoinTournament
    | StartTournament
    | ClaimTournamentPrize
    | CancelTournament

  datatype Action =
    | Transfer(to: Address, amount: u64)
    | DelegateStake(validator: Address, amount: u64)
    | DistributeReward(rewards: seq<(Address, u64)>)
    | ReportTournamentResults(rankings: seq<Address>)
    | OtherAction(kind: ActionKind)

  /** Unchecked `u64` arithmetic as a release build performs it. */
  function Wrap(x: nat): u64 {
    x % 0x1_0000_0000_0000_0000
  }

  /** The sum modulo the width of a `u64`, whether it is reduced on the way or at the end. */
  lemma WrapExactly(x: nat, y: nat)
    ensures x <= U64_MAX ==> Wrap(x) == x
    ensures Wrap(x + U64_MAX + 1) == Wrap(x)
    ensures Wrap(Wrap(x) + y) == Wrap(x + y)
  {
  }

  function KindGas(k: ActionKind): u64 {
    match k
    case CreateAssetClass => 50_000
    case MintAsset => 30_000
    case TransferAsset => 10_000
    case BurnAsset => 10_000
    case CreateListing => 40_000
    case CancelListing => 20_000
    case BuyListing => 60_000
    case CreateProfile => 30_000
    case AddAchievement => 20_000
    case UpdateReputation => 15_000
    case RegisterValidator => 100_000
    case UndelegateStake => 30_000
    case RegisterAttestor => 50_000
    case SubmitMatchResult => 80_000
    case SubmitProposal => 100_000
    case VoteProposal => 30_000
    case ExecuteProposal => 50_000
    case CreateSession => 50_000
    case RevokeSession => 20_000
    case ListForRent => 30_000
    case RentAsset => 40_000
    case ReturnRental => 25_000
    case ClaimExpiredRental => 25_000
    case CancelRentalListing => 20_000
    case CreateGuild => 50_000
    case JoinGuild => 20_000
    case LeaveGuild => 20_000
    case GuildDeposit => 25_000
    case GuildWithdraw => 25_000
    case GuildPromote => 15_000
    case GuildKick => 20_000
    case CreateTournament => 50_000
    case JoinTournament => 25_000
    case StartTournament => 30_000
    case ClaimTournamentPrize => 25_000
    case CancelTournament => 30_000
  }

  function ActionGas(a: Action): u64 {
    match a
    case Transfer(_, _) => 5_000
    case DelegateStake(_, _) => 30_000
    case DistributeReward(rewards) => Wrap(40_000 + |rewards| * 5_000)
    case ReportTournamentResults(rankings) => Wrap(40_000 + |rankings| * 5_000)
    case OtherAction(kind) => KindGas(kind)
  }

  /** No action is free, and the lists cost 5000 more for each entry. */
  lemma GasOfActions(a: Action, rewards: seq<(Address, u64)>, rankings: seq<Address>, r: (Address, u64), p: Address)
    ensures !a.DistributeReward? && !a.ReportTournamentResults? ==> 5_000 <= ActionGas(a) <= 100_000
    ensures ActionGas(DistributeReward([])) == ActionGas(ReportTournamentResults([])) == 40_000
    ensures ActionGas(DistributeReward(rewards + [r])) == Wrap(ActionGas(DistributeReward(rewards)) + 5_000)
    ensures ActionGas(ReportTournamentResults(rankings + [p])) ==
            Wrap(ActionGas(ReportTournamentResults(rankings)) + 5_000)
  {
    WrapExactly(40_000 + |rewards| * 5_000, 5_000);
    WrapExactly(40_000 + |rankings| * 5_000, 5_000);
  }

  function KindLabel(k: ActionKind): string {
    match k
    case CreateAssetClass => "create_asset_class"
    case MintAsset => "mint_asset"
    case TransferAsset => "transfer_asset"
    case BurnAsset => "burn_asset"
    case CreateListing => "create_listing"
    case CancelListing => "cancel_listing"
    case BuyListing => "buy_listing"
    case CreateProfile => "create_profile"
    case AddAchievement => "add_achievement"
    case UpdateReputation => "update_reputation"
    case RegisterValidator => "register_validator"
    case UndelegateStake => "undelegate_stake"
    case RegisterAttestor => "register_attestor"
    case SubmitMatchResult => "submit_match_result"
    case SubmitProposal => "submit_proposal"
    case VoteProposal => "vote_proposal"
    case ExecuteProposal => "execute_proposal"
    case CreateSession => "create_session"
    case RevokeSession => "revoke_session"
    case ListForRent => "list_for_rent"
    case RentAsset => "rent_asset"
    case ReturnRental => "return_rental"
    case ClaimExpiredRental => "claim_expired_rental"
    case CancelRentalListing => "cancel_rental_listing"
    case CreateGuild => "create_guild"
    case JoinGuild => "join_guild"
    case LeaveGuild => "leave_guild"
    case GuildDeposit => "guild_deposit"
    case GuildWithdraw => "guild_withdraw"
    case GuildPromote => "guild_promote"
    case GuildKick => "guild_kick"
    case CreateTournament => "create_tournament"
    case JoinTournament => "join_tournament"
    case StartTournament => "start_tournament"
    case ClaimTournamentPrize => "claim_tournament_prize"
    case CancelTournament => "cancel_tournament"
  }

  function Label(a: Action): string {
    match a
    case Transfer(_, _) => "transfer"
    case DelegateStake(_, _) => "delegate_stake"
    case DistributeReward(_) => "distribute_reward"
    case ReportTournamentResults(_) => "report_tournament_results"
    case OtherAction(kind) => KindLabel(kind)
  }
}
