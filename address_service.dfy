/** The address store (src/services/address.service.js). The caller is the
    authenticated user, given by id; an address may be changed or removed
    only by the client it belongs to. */
module AddressService {
  import opened Common
  import opened Database

  const ClientNotFound := "Client not found"
  const AddressIdRequired := "Address ID is required"
  const CannotEdit := "Vous n’avez pas la permission de modifier cette adresse"
  const CannotDelete := "Vous ne pouvez pas supprimer cette adresse"

  /** The body createAddressService reads. */
  datatype AddressInput = AddressInput(
    street: Option<string>, city: Option<string>, postalCode: Option<string>, country: Option<string>)

  /** The address columns an update body may set (everything but the id, clientId included). */
  datatype AddressPatch = AddressPatch(
    clientId: Option<int>, street: Option<string>, city: Option<string>,
    postalCode: Option<string>, country: Option<string>)

  /** The address belongs to the client. */
  predicate OwnedBy(addresses: map<int, Address>, id: int, client: Client) {
    id in addresses && addresses[id].clientId == client.id
  }

  /** createAddressService: the caller must have a client, who then owns the new address. */
  method CreateAddress(db: Store, userId: int, body: AddressInput) returns (r: Result<Address>)
    requires db.Valid()
    modifies db`addresses, db`nextId
    ensures db.Valid()
    ensures old(db.ClientOfUser(userId)).None? ==>
      r == Err(ClientNotFound) && db.addresses == old(db.addresses) && db.nextId == old(db.nextId)
    ensures old(db.ClientOfUser(userId)).Some? ==>
      && r.Ok?
      && r.value == Address(old(db.nextId), old(db.ClientOfUser(userId)).value.id,
                            body.street, body.city, body.postalCode, body.country)
      && db.addresses == old(db.addresses)[r.value.id := r.value]
      && db.nextId == old(db.nextId) + 1
  {
    var client := db.ClientOfUser(userId);
    if client.None? {
      return Err(ClientNotFound);
    }
    var address := Address(db.nextId, client.value.id, body.street, body.city, body.postalCode, body.country);
    db.addresses := db.addresses[address.id := address];
    db.nextId := db.nextId + 1;
    r := Ok(address);
  }

  /** An address with the patch's defined columns overwritten; the id never changes. */
  function ApplyAddressPatch(a: Address, p: AddressPatch): (r: Address)
    ensures r.id == a.id
    ensures r.clientId == p.clientId.GetOr(a.clientId)
    ensures r.street == (if p.street.Some? then p.street else a.street)
    ensures r.city == (if p.city.Some? then p.city else a.city)
    ensures r.postalCode == (if p.postalCode.Some? then p.postalCode else a.postalCode)
    ensures r.country == (if p.country.Some? then p.country else a.country)
  {
    Address(a.id, p.clientId.GetOr(a.clientId),
            if p.street.Some? then p.street else a.street,
            if p.city.Some? then p.city else a.city,
            if p.postalCode.Some? then p.postalCode else a.postalCode,
            if p.country.Some? then p.country else a.country)
  }

  /** updateAddressService: an id is required, the caller must have a client,
      and the address must exist and belong to it; then only that address
      changes, in the fields the body gives (its clientId included). */
  method UpdateAddress(db: Store, userId: int, id: Option<int>, fields: AddressPatch) returns (r: Result<Address>)
    requires db.Valid()
    modifies db`addresses
    ensures db.Valid()
    ensures r.Err? ==> db.addresses == old(db.addresses)
    ensures !TruthyInt(id) ==> r == Err(AddressIdRequired)
    ensures TruthyInt(id) && db.ClientOfUser(userId).None? ==> r == Err(ClientNotFound)
    ensures TruthyInt(id) && db.ClientOfUser(userId).Some? ==>
      if OwnedBy(old(db.addresses), id.value, db.ClientOfUser(userId).value) then
        && r == Ok(ApplyAddressPatch(old(db.addresses)[id.value], fields))
        && db.addresses == old(db.addresses)[id.value := r.value]
      else r == Err(CannotEdit)
  {
    if !TruthyInt(id) {
      return Err(AddressIdRequired);
    }
    var client := db.ClientOfUser(userId);
    if client.None? {
      return Err(ClientNotFound);
    }
    if !OwnedBy(db.addresses, id.value, client.value) {
      return Err(CannotEdit);
    }
    var updated := ApplyAddressPatch(db.addresses[id.value], fields);
    db.addresses := db.addresses[id.value := updated];
    r := Ok(updated);
  }

  /** getAddressByUserIdService: every address of the caller's client. */
  function GetAddressesOfUser(db: Store, userId: int): (r: Result<seq<Address>>)
    reads db
    requires db.Valid()
    ensures r.Ok? <==> db.ClientOfUser(userId).Some?
    ensures r.Err? ==> r.message == ClientNotFound
    ensures r.Ok? ==> forall a :: a in r.value <==> InTable(db.addresses, a) && a.clientId == db.ClientOfUser(userId).value.id
  {
    match db.ClientOfUser(userId)
    case None => Err(ClientNotFound)
    case Some(client) => Ok(Where(db.addresses, db.nextId, (a: Address) => a.clientId == client.id))
  }

  /** deleteAddressService: an id is required, the caller must have a client,
      and the address must belong to it; then only that address is removed. */
  method DeleteAddress(db: Store, userId: int, addressId: Option<int>) returns (r: Result<Address>)
    requires db.Valid()
    modifies db`addresses
    ensures db.Valid()
    ensures r.Err? ==> db.addresses == old(db.addresses)
    ensures !TruthyInt(addressId) ==> r == Err(AddressIdRequired)
    ensures TruthyInt(addressId) && db.ClientOfUser(userId).None? ==> r == Err(ClientNotFound)
    ensures TruthyInt(addressId) && db.ClientOfUser(userId).Some? ==>
      if OwnedBy(old(db.addresses), addressId.value, db.ClientOfUser(userId).value) then
        && r == Ok(old(db.addresses)[addressId.value])
        && db.addresses == old(db.addresses) - {addressId.value}
      else r == Err(CannotDelete)
  {
    if !TruthyInt(addressId) {
      return Err(AddressIdRequired);
    }
    var client := db.ClientOfUser(userId);
    if client.None? {
      return Err(ClientNotFound);
    }
    if !OwnedBy(db.addresses, addressId.value, client.value) {
      return Err(CannotDelete);
    }
    r := Ok(db.addresses[addressId.value]);
    db.addresses := db.addresses - {addressId.value};
  }

  /** The ownership check lets through exactly the user whose client owns
      the address. */
  lemma OwnershipMeansOwnerUser(db: Store, userId: int, id: int)
    requires db.Valid()
    requires db.ClientOfUser(userId).Some?
    ensures OwnedBy(db.addresses, id, db.ClientOfUser(userId).value) <==>
      id in db.addresses && db.addresses[id].clientId in db.clients &&
      db.clients[db.addresses[id].clientId].userId == userId
  {
  }
}
