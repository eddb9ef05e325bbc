/** DonationService as functions over the donations table: a donation names a
    user and an item post, at most one per pair is admitted, and donate moves the
    pair's donation to ACCEPTED. */
module Donations {
  import opened Outcomes
  import opened Errors
  import opened Enums
  import opened Seqs

  /** Donation. `userId` is absent when the user or the user's id is null, and
      likewise `itemPostId`; a new donation has no id yet. */
  datatype Donation = Donation(id: Option<int>, status: DonationStatus, userId: Option<int>, itemPostId: Option<int>)

  /** A donation as `new Donation()` and the two setters leave it: status PENDING. */
  function NewDonation(userId: int, itemPostId: int): (d: Donation)
    ensures d.status == Pending && d.id.None?
    ensures SamePair(d, userId, itemPostId)
  {
    Donation(None, Pending, Some(userId), Some(itemPostId))
  }

  /** The donations table in insertion order, and the IDENTITY generator. */
  datatype DonationTable = DonationTable(rows: seq<Donation>, nextId: int)

  datatype DonationStep<T> = DonationStep(result: Result<T, Exception>, table: DonationTable)

  /** The pair of a donation. */
  predicate SamePair(d: Donation, userId: int, itemPostId: int) {
    d.userId == Some(userId) && d.itemPostId == Some(itemPostId)
  }

  /** Every stored donation has a user, an item post and an id below the
      generator; ids are unique, and no two donations share a pair. */
  predicate Valid(t: DonationTable) {
    && (forall i :: 0 <= i < |t.rows| ==>
          t.rows[i].userId.Some? && t.rows[i].itemPostId.Some? && t.rows[i].id.Some? && t.rows[i].id.value < t.nextId)
    && (forall i, j :: 0 <= i < j < |t.rows| ==> t.rows[i].id != t.rows[j].id)
    && (forall i, j :: 0 <= i < j < |t.rows| ==>
          !(t.rows[i].userId == t.rows[j].userId && t.rows[i].itemPostId == t.rows[j].itemPostId))
  }

  /** The position of the first donation of the pair. */
  function IndexOfPair(rows: seq<Donation>, userId: int, itemPostId: int): (r: Option<nat>)
    ensures r.Some? ==> r.value < |rows| && SamePair(rows[r.value], userId, itemPostId)
    ensures r.None? ==> forall i :: 0 <= i < |rows| ==> !SamePair(rows[i], userId, itemPostId)
    decreases |rows|
  {
    if rows == [] then None
    else if SamePair(rows[0], userId, itemPostId) then Some(0)
    else match IndexOfPair(rows[1..], userId, itemPostId)
      case None => None
      case Some(i) => Some(i + 1)
  }

  /** findByUser_IdAndItemPost_Id. */
  function FindByPair(t: DonationTable, userId: int, itemPostId: int): Option<Donation> {
    match IndexOfPair(t.rows, userId, itemPostId)
    case None => None
    case Some(i) => Some(t.rows[i])
  }

  /** findById. */
  function FindDonationById(rows: seq<Donation>, id: int): (r: Option<Donation>)
    ensures r.Some? ==> r.value in rows && r.value.id == Some(id)
    ensures r.None? ==> forall d :: d in rows ==> d.id != Some(id)
    decreases |rows|
  {
    if rows == [] then None
    else if rows[0].id == Some(id) then Some(rows[0])
    else FindDonationById(rows[1..], id)
  }

  const DonationIsNull := IllegalArgument("Donation cannot be null")
  const DonationWithoutUser := IllegalArgument("Donation must have a valid user with an ID")
  const DonationWithoutItemPost := IllegalArgument("Donation must have a valid item post with an ID")
  const DuplicateDonation := IllegalArgument("A donation already exists for this user and item post")
  const DonationNotFound := IllegalArgument("Donation not found")

  /** validateDonation: null, then the user, then the item post. */
  function ValidateDonation(donation: Option<Donation>): Result<Donation, Exception> {
    if donation.None? then Failure(DonationIsNull)
    else if donation.value.userId.None? then Failure(DonationWithoutUser)
    else if donation.value.itemPostId.None? then Failure(DonationWithoutItemPost)
    else Success(donation.value)
  }

  /** save: validateDonation, checkForDuplicateDonation, then the insert, which
      generates the id. */
  function Save(t: DonationTable, donation: Option<Donation>): DonationStep<Donation>
    requires donation.None? || donation.value.id.None?
  {
    match ValidateDonation(donation)
    case Failure(e) => DonationStep(Failure(e), t)
    case Success(d) =>
      if FindByPair(t, d.userId.value, d.itemPostId.value).Some? then DonationStep(Failure(DuplicateDonation), t)
      else
        var saved := d.(id := Some(t.nextId));
        DonationStep(Success(saved), DonationTable(t.rows + [saved], t.nextId + 1))
  }

  /** save(null) fails; a donation with neither user nor item post reports the
      user; a donation with a user but no item post reports the item post; none of
      these stores anything. */
  lemma SaveValidationOrder(t: DonationTable, donation: Donation)
    requires donation.id.None?
    ensures Save(t, None) == DonationStep(Failure(DonationIsNull), t)
    ensures donation.userId.None? ==> Save(t, Some(donation)) == DonationStep(Failure(DonationWithoutUser), t)
    ensures donation.userId.Some? && donation.itemPostId.None? ==>
      Save(t, Some(donation)) == DonationStep(Failure(DonationWithoutItemPost), t)
  {
  }

  /** A second donation for a stored pair is refused and the table is unchanged. */
  lemma SaveRefusesDuplicate(t: DonationTable, donation: Donation, stored: Donation)
    requires donation.id.None? && donation.userId.Some? && donation.itemPostId.Some?
    requires stored in t.rows && stored.userId == donation.userId && stored.itemPostId == donation.itemPostId
    ensures Save(t, Some(donation)) == DonationStep(Failure(DuplicateDonation), t)
  {
    var k :| 0 <= k < |t.rows| && t.rows[k] == stored;
    assert SamePair(t.rows[k], donation.userId.value, donation.itemPostId.value);
  }

  /** A valid donation for a new pair is appended with a generated id and its
      own status, PENDING for a new donation; the table stays valid, so there is
      never more than one donation per pair. */
  lemma SaveAddsExactlyOne(t: DonationTable, donation: Donation)
    requires Valid(t) && donation.id.None? && donation.userId.Some? && donation.itemPostId.Some?
    requires forall d :: d in t.rows ==> !(d.userId == donation.userId && d.itemPostId == donation.itemPostId)
    ensures Save(t, Some(donation)).result == Success(donation.(id := Some(t.nextId)))
    ensures Save(t, Some(donation)).table == DonationTable(t.rows + [donation.(id := Some(t.nextId))], t.nextId + 1)
    ensures Valid(Save(t, Some(donation)).table)
    ensures donation == NewDonation(donation.userId.value, donation.itemPostId.value) ==>
      Save(t, Some(donation)).result.value.status == Pending
  {
  }

  /** Every call of save keeps the table valid. */
  lemma SaveKeepsValid(t: DonationTable, donation: Option<Donation>)
    requires Valid(t) && (donation.None? || donation.value.id.None?)
    ensures Valid(Save(t, donation).table)
  {
    if ValidateDonation(donation).Success? {
      var d := donation.value;
      if FindByPair(t, d.userId.value, d.itemPostId.value).None? {
        SaveAddsExactlyOne(t, d);
      }
    }
  }

  /** donate: the pair's donation becomes ACCEPTED and is saved. */
  function Donate(t: DonationTable, userId: int, itemPostId: int): DonationStep<Donation> {
    match IndexOfPair(t.rows, userId, itemPostId)
    case None => DonationStep(Failure(DonationNotFound), t)
    case Some(k) =>
      var accepted := t.rows[k].(status := Accepted);
      DonationStep(Success(accepted), t.(rows := t.rows[k := accepted]))
  }

  /** donate on a pair without a donation fails and changes nothing; otherwise it
      sets that donation's status to ACCEPTED and leaves every other donation,
      including other offers for the same item, as it was. */
  lemma DonateAcceptsOnlyThatPair(t: DonationTable, userId: int, itemPostId: int)
    ensures FindByPair(t, userId, itemPostId).None? ==>
      Donate(t, userId, itemPostId) == DonationStep(Failure(DonationNotFound), t)
    ensures FindByPair(t, userId, itemPostId).Some? ==>
      var after := Donate(t, userId, itemPostId).table;
      && Donate(t, userId, itemPostId).result == Success(FindByPair(t, userId, itemPostId).value.(status := Accepted))
      && |after.rows| == |t.rows| && after.nextId == t.nextId
      && (forall i :: 0 <= i < |t.rows| ==>
            if Some(i) == IndexOfPair(t.rows, userId, itemPostId)
            then after.rows[i] == t.rows[i].(status := Accepted)
            else after.rows[i] == t.rows[i])
      && (forall i :: 0 <= i < |t.rows| && after.rows[i].status == Rejected ==> t.rows[i].status == Rejected)
  {
  }

  /** donate keeps the table valid, and a second donate changes nothing more. */
  lemma DonateIdempotent(t: DonationTable, userId: int, itemPostId: int)
    requires Valid(t)
    ensures Valid(Donate(t, userId, itemPostId).table)
    ensures var once := Donate(t, userId, itemPostId);
      && Donate(once.table, userId, itemPostId).table == once.table
      && Donate(once.table, userId, itemPostId).result == once.result
  {
    var once := Donate(t, userId, itemPostId);
    var k := IndexOfPair(t.rows, userId, itemPostId);
    if k.Some? {
      assert IndexOfPair(once.table.rows, userId, itemPostId) == k by {
        PairIndexUnique(once.table, userId, itemPostId, k.value);
      }
    }
  }

  /** In a valid table, a row of the pair is the first one. */
  lemma PairIndexUnique(t: DonationTable, userId: int, itemPostId: int, k: nat)
    requires Valid(t) && k < |t.rows| && SamePair(t.rows[k], userId, itemPostId)
    ensures IndexOfPair(t.rows, userId, itemPostId) == Some(k)
  {
  }
  /** A new donation for a pair nobody has offered yet is stored PENDING under the
      next id, and the pair's lookup then finds exactly it. */
  lemma NewDonationSavedAndFound(t: DonationTable, userId: int, itemPostId: int)
    requires Valid(t) && FindByPair(t, userId, itemPostId).None?
    ensures var step := Save(t, Some(NewDonation(userId, itemPostId)));
      && step.result.Success?
      && step.result.value.status == Pending
      && step.result.value.id == Some(t.nextId)
      && SamePair(step.result.value, userId, itemPostId)
      && FindByPair(step.table, userId, itemPostId) == Some(step.result.value)
  {
    var d := NewDonation(userId, itemPostId);
    assert forall e :: e in t.rows ==> !(e.userId == d.userId && e.itemPostId == d.itemPostId) by {
      forall e | e in t.rows
        ensures !(e.userId == d.userId && e.itemPostId == d.itemPostId)
      {
        var k :| 0 <= k < |t.rows| && t.rows[k] == e;
        assert !SamePair(t.rows[k], userId, itemPostId);
      }
    }
    SaveAddsExactlyOne(t, d);
    var step := Save(t, Some(d));
    PairIndexUnique(step.table, userId, itemPostId, |t.rows|);
  }


  function ForUser(userId: int): Donation -> bool {
    (d: Donation) => d.userId == Some(userId)
  }

  function ForItemPost(itemPostId: int): Donation -> bool {
    (d: Donation) => d.itemPostId == Some(itemPostId)
  }

  /** getDonationsByUserId: findByUser_Id. */
  function DonationsByUserId(t: DonationTable, userId: int): seq<Donation> {
    Filter(t.rows, ForUser(userId))
  }

  /** getDonationsByItemPostId: findByItemPost_Id. */
  function DonationsByItemPostId(t: DonationTable, itemPostId: int): seq<Donation> {
    Filter(t.rows, ForItemPost(itemPostId))
  }

  /** The two queries return exactly the donations with the matching id, in
      table order, each as often as it is stored. */
  lemma GettersExact(t: DonationTable, userId: int, itemPostId: int)
    ensures forall d :: d in DonationsByUserId(t, userId) <==> d in t.rows && d.userId == Some(userId)
    ensures forall d :: d in DonationsByItemPostId(t, itemPostId) <==> d in t.rows && d.itemPostId == Some(itemPostId)
    ensures IsSubsequence(DonationsByUserId(t, userId), t.rows)
    ensures IsSubsequence(DonationsByItemPostId(t, itemPostId), t.rows)
    ensures forall d :: d in t.rows && d.userId == Some(userId) ==>
      multiset(DonationsByUserId(t, userId))[d] == multiset(t.rows)[d]
    ensures forall d :: d in t.rows && d.itemPostId == Some(itemPostId) ==>
      multiset(DonationsByItemPostId(t, itemPostId))[d] == multiset(t.rows)[d]
  {
    FilterIsSubsequence(t.rows, ForUser(userId));
    FilterIsSubsequence(t.rows, ForItemPost(itemPostId));
    forall d | d in t.rows && d.userId == Some(userId)
      ensures multiset(DonationsByUserId(t, userId))[d] == multiset(t.rows)[d]
    {
      FilterCounts(t.rows, ForUser(userId), d);
    }
    forall d | d in t.rows && d.itemPostId == Some(itemPostId)
      ensures multiset(DonationsByItemPostId(t, itemPostId))[d] == multiset(t.rows)[d]
    {
      FilterCounts(t.rows, ForItemPost(itemPostId), d);
    }
  }
}

/** DonationRepository and DonationService as objects, each method proved to do
    what the corresponding function of Donations says. */
module DonationServices {
  import opened Outcomes
  import opened Errors
  import opened Enums
  import opened Seqs
  import opened Donations

  class DonationRepository {
    var rows: seq<Donation>
    var nextId: int

    constructor ()
      ensures rows == [] && nextId == 1
    {
      rows := [];
      nextId := 1;
    }

    function Table(): DonationTable
      reads this
    {
      DonationTable(rows, nextId)
    }

    method FindById(id: int) returns (r: Option<Donation>)
      ensures r == FindDonationById(rows, id)
    {
      r := FindDonationById(rows, id);
    }

    method FindByUserIdAndItemPostId(userId: int, itemPostId: int) returns (r: Option<Donation>)
      ensures r == FindByPair(Table(), userId, itemPostId)
    {
      r := FindByPair(Table(), userId, itemPostId);
    }

    method FindByUserId(userId: int) returns (r: seq<Donation>)
      ensures r == DonationsByUserId(Table(), userId)
      ensures forall d :: d in r <==> d in rows && d.userId == Some(userId)
    {
      r := Filter(rows, ForUser(userId));
    }

    method FindByItemPostId(itemPostId: int) returns (r: seq<Donation>)
      ensures r == DonationsByItemPostId(Table(), itemPostId)
      ensures forall d :: d in r <==> d in rows && d.itemPostId == Some(itemPostId)
    {
      r := Filter(rows, ForItemPost(itemPostId));
    }

    /** save of a new entity: the id is generated and the row appended. */
    method Insert(donation: Donation) returns (saved: Donation)
      modifies this
      ensures saved == donation.(id := Some(old(nextId)))
      ensures rows == old(rows) + [saved] && nextId == old(nextId) + 1
    {
      saved := donation.(id := Some(nextId));
      rows := rows + [saved];
      nextId := nextId + 1;
    }

    /** save of the pair's stored donation: its row is overwritten. */
    method Update(donation: Donation)
      requires donation.userId.Some? && donation.itemPostId.Some?
      requires IndexOfPair(rows, donation.userId.value, donation.itemPostId.value).Some?
      modifies this
      ensures rows == old(rows)[IndexOfPair(old(rows), donation.userId.value, donation.itemPostId.value).value := donation]
      ensures nextId == old(nextId)
    {
      rows := rows[IndexOfPair(rows, donation.userId.value, donation.itemPostId.value).value := donation];
    }
  }

  class DonationService {
    const donationRepository: DonationRepository

    constructor (donationRepository: DonationRepository)
      ensures this.donationRepository == donationRepository
    {
      this.donationRepository := donationRepository;
    }

    /** getDonationById. */
    method GetDonationById(id: int) returns (r: Option<Donation>)
      ensures r.Some? ==> r.value in donationRepository.rows && r.value.id == Some(id)
      ensures r.None? ==> forall d :: d in donationRepository.rows ==> d.id != Some(id)
    {
      r := donationRepository.FindById(id);
    }

    /** save: validateDonation, checkForDuplicateDonation, save. */
    method Save(donation: Option<Donation>) returns (r: Result<Donation, Exception>)
      requires donation.None? || donation.value.id.None?
      modifies donationRepository
      ensures DonationStep(r, donationRepository.Table()) == Donations.Save(old(donationRepository.Table()), donation)
    {
      if donation.None? {
        return Failure(DonationIsNull);
      }
      var d := donation.value;
      if d.userId.None? {
        return Failure(DonationWithoutUser);
      }
      if d.itemPostId.None? {
        return Failure(DonationWithoutItemPost);
      }
      var existing := donationRepository.FindByUserIdAndItemPostId(d.userId.value, d.itemPostId.value);
      if existing.Some? {
        return Failure(DuplicateDonation);
      }
      var saved := donationRepository.Insert(d);
      return Success(saved);
    }

    /** donate: find the pair's donation, set ACCEPTED, save. */
    method Donate(userId: int, itemPostId: int) returns (r: Result<Donation, Exception>)
      modifies donationRepository
      ensures DonationStep(r, donationRepository.Table()) == Donations.Donate(old(donationRepository.Table()), userId, itemPostId)
    {
      var found := donationRepository.FindByUserIdAndItemPostId(userId, itemPostId);
      if found.None? {
        return Failure(DonationNotFound);
      }
      var donation := found.value;
      donation := donation.(status := Accepted);
      donationRepository.Update(donation);
      return Success(donation);
    }

    method GetDonationsByUserId(userId: int) returns (r: seq<Donation>)
      ensures r == DonationsByUserId(donationRepository.Table(), userId)
    {
      r := donationRepository.FindByUserId(userId);
    }

    method GetDonationsByItemPostId(itemPostId: int) returns (r: seq<Donation>)
      ensures r == DonationsByItemPostId(donationRepository.Table(), itemPostId)
    {
      r := donationRepository.FindByItemPostId(itemPostId);
    }
  }
}
