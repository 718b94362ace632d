/**
 * The share monitors of the mining proxy: shares found by miners are
 * buffered, and a periodic task hands the buffer to the monitoring server
 * and empties it. The translator's monitor (src/shares_monitor.rs) only
 * sends once a batch of 20 has gathered; the monitor module's copy
 * (src/monitor/shares.rs) sends whatever is pending. Both have the same
 * buffer and differ only in that decision, which is the monitor's policy.
 *
 * Each tick is one atomic step; the timer and the HTTP request are left to
 * the runtime, and the request's outcome only decides which line is logged.
 */
module Shares {
  import opened Wrappers
  import opened Utils
  import Config

  /** Why a share was rejected. */
  datatype RejectionReason = JobIdNotFound | InvalidShare | InvalidJobIdFormat | DifficultyMismatch

  /** `Display for RejectionReason`. */
  function ReasonText(r: RejectionReason): (s: string)
    ensures |s| > 0
  {
    match r
    case JobIdNotFound => "Job ID not found"
    case InvalidShare => "Invalid share"
    case InvalidJobIdFormat => "Invalid job ID format"
    case DifficultyMismatch => "Difficulty mismatch"
  }

  /** The four reasons display as four different texts. */
  lemma ReasonTextsDistinct(a: RejectionReason, b: RejectionReason)
    ensures ReasonText(a) == ReasonText(b) ==> a == b
  {
    if a != b {
      assert ReasonText(a)[..4] != ReasonText(b)[..4] || |ReasonText(a)| != |ReasonText(b)|;
    }
  }

  /** `ShareInfo`: an accepted share has no rejection reason. The timestamp
      is the seconds since the epoch at creation, supplied by the caller. */
  datatype ShareInfo = ShareInfo(
    workerName: string,
    difficulty: Option<real>,
    jobId: i64,
    rejectionReason: Option<RejectionReason>,
    timestamp: nat)

  /** `BATCH_SIZE`. */
  const BatchSize: nat := 20

  /** When a tick sends the pending shares. */
  datatype FlushPolicy =
    | AtLeast(batchSize: nat)   // src/shares_monitor.rs: only a full batch
    | AnyPending                // src/monitor/shares.rs: whatever is pending

  /** The path of the share endpoint on every server. */
  const ShareEndpoint: string := "/api/share/save"

  /** The base URLs of the servers, defined outside this model. */
  datatype ServerUrls = ServerUrls(staging: string, testnet3: string, local: string, production: string)

  /** `monitoring_server_url`: the share endpoint of the server for the
      given environment name; any other name is unreachable in the source. */
  function MonitoringServerUrl(environment: string, urls: ServerUrls): (u: string)
    requires environment in {"staging", "testnet3", "local", "production"}
    ensures |u| >= |ShareEndpoint| && u[|u| - |ShareEndpoint|..] == ShareEndpoint
    ensures u[..|u| - |ShareEndpoint|] in {urls.staging, urls.testnet3, urls.local, urls.production}
  {
    var base :=
      if environment == "staging" then urls.staging
      else if environment == "testnet3" then urls.testnet3
      else if environment == "local" then urls.local
      else urls.production;
    base + ShareEndpoint
  }

  /** The environment the configuration names is always one the URL match
      handles, and never "testnet3": shares go to the staging server when
      staging is set, else the local one when local is set, else production. */
  lemma ShareUrlForConfiguration(staging: bool, local: bool, urls: ServerUrls)
    ensures Config.Environment(staging, local) in {"staging", "testnet3", "local", "production"}
    ensures Config.Environment(staging, local) != "testnet3"
    ensures MonitoringServerUrl(Config.Environment(staging, local), urls)
      == (if staging then urls.staging else if local then urls.local else urls.production) + ShareEndpoint
  {
  }

  class SharesMonitor {
    const policy: FlushPolicy
    /** The `pending_shares` buffer. */
    var pending: seq<ShareInfo>
    /** Every share ever inserted, in order. */
    ghost var inserted: seq<ShareInfo>
    /** Every share handed to the server, in order. */
    ghost var delivered: seq<ShareInfo>

    /** No share is lost or sent twice: what was delivered followed by what
        is pending is exactly what was inserted. */
    ghost predicate Valid()
      reads this
    {
      delivered + pending == inserted
    }

    /** `SharesMonitor::new` in src/shares_monitor.rs: empty, batches of 20. */
    constructor Batched()
      ensures Valid()
      ensures policy == AtLeast(BatchSize) && pending == [] && inserted == [] && delivered == []
    {
      policy := AtLeast(BatchSize);
      pending := [];
      inserted := [];
      delivered := [];
    }

    /** `SharesMonitor::new` in src/monitor/shares.rs: empty, no threshold. */
    constructor Flushing()
      ensures Valid()
      ensures policy == AnyPending && pending == [] && inserted == [] && delivered == []
    {
      policy := AnyPending;
      pending := [];
      inserted := [];
      delivered := [];
    }

    /** `insert_share`: the share joins the end of the buffer. */
    method InsertShare(share: ShareInfo)
      requires Valid()
      modifies this
      ensures Valid()
      ensures pending == old(pending) + [share]
      ensures inserted == old(inserted) + [share] && delivered == old(delivered)
    {
      pending := pending + [share];
      inserted := inserted + [share];
    }

    /** `get_pending_shares`: a copy of the buffer, which is left as it is. */
    method GetPendingShares() returns (shares: seq<ShareInfo>)
      ensures shares == pending
    {
      shares := pending;
    }

    /** `clear_pending_shares`: the buffer is emptied. It keeps `Valid` only
        when what it drops has just been delivered, so `Tick`, which sends
        the list first, is its only caller. */
    method ClearPendingShares()
      modifies this
      ensures pending == []
      ensures inserted == old(inserted) && delivered == old(delivered)
    {
      pending := [];
    }

    /** One tick of `monitor`: when shares are pending and the policy's
        threshold is met they are handed to the server, and the buffer is
        emptied whatever the server answered; otherwise nothing changes. */
    method Tick() returns (sent: Option<seq<ShareInfo>>)
      requires Valid()
      modifies this
      ensures Valid()
      ensures sent.Some? <==> old(pending) != [] && (policy.AnyPending? || |old(pending)| >= policy.batchSize)
      ensures sent.Some? ==> sent.value == old(pending) && pending == [] && delivered == old(delivered) + old(pending)
      ensures sent.None? ==> pending == old(pending) && delivered == old(delivered)
      ensures inserted == old(inserted)
      ensures policy.AnyPending? ==> pending == []
      ensures policy.AtLeast? && policy.batchSize > 0 ==> |pending| < policy.batchSize
    {
      var shares := GetPendingShares();
      if shares != [] {
        if policy.AnyPending? || |shares| >= policy.batchSize {
          delivered := delivered + shares;
          ClearPendingShares();
          sent := Some(shares);
        } else {
          sent := None;
        }
      } else {
        sent := None;
      }
    }
  }
}
