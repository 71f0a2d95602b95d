/**
  The catalog entities that events and tickets refer to: categories, venues
  and ticket types. Each has a `Validate` that maps its inputs to a
  `{field: message}` error map, a `New` that creates a row only when that map
  is empty, and an `Update` that overwrites fields in place.

  The rows already in the database are given to the validators as a map from
  primary key to the compared columns; the primary key of a new row is a
  parameter that is not yet in use.
*/
module Catalog {
  import opened Common

  /** `filter(<column>__iexact=value).exclude(pk=excludeId).exists()`. */
  predicate TakenIgnoreCase(value: string, excludeId: Option<nat>, existing: map<nat, string>) {
    exists id :: id in existing && Some(id) != excludeId && EqualsIgnoreCase(existing[id], value)
  }

  // ---------------------------------------------------------------- Category

  const CategoryNameBlank := "El nombre no puede estar vacío"
  const CategoryNameTaken := "Ya existe una categoría con ese nombre"
  const CategoryDescriptionBlank := "La descripción no puede estar vacía"

  class Category {
    const id: nat
    var name: string
    var description: string
    var isActive: bool

    /** `Category.objects.create(...)`. */
    constructor Create(id: nat, name: string, description: string, isActive: bool)
      ensures this.id == id && this.name == name && this.description == description
      ensures this.isActive == isActive
    {
      this.id := id;
      this.name := name;
      this.description := description;
      this.isActive := isActive;
    }

    /** `Category.validate`: the name must be non-blank and unique ignoring
        case among the other categories; the description must be non-blank. */
    static function Validate(name: string, description: string, excludeId: Option<nat>,
                             names: map<nat, string>): (errors: Errors)
      ensures errors.Keys <= {"name", "description"}
      ensures "name" in errors <==> IsBlank(name) || TakenIgnoreCase(name, excludeId, names)
      ensures "name" in errors ==>
        errors["name"] == (if IsBlank(name) then CategoryNameBlank else CategoryNameTaken)
      ensures "description" in errors <==> IsBlank(description)
      ensures "description" in errors ==> errors["description"] == CategoryDescriptionBlank
    {
      var nameErrors :=
        if IsBlank(name) then map["name" := CategoryNameBlank]
        else if TakenIgnoreCase(name, excludeId, names) then map["name" := CategoryNameTaken]
        else map[];
      if IsBlank(description) then nameErrors["description" := CategoryDescriptionBlank]
      else nameErrors
    }

    /** `Category.new`: strips the name, validates it, and creates the row
        with the stripped name and description only when nothing failed. */
    static method New(id: nat, name: string, description: string, isActive: bool,
                      names: map<nat, string>)
      returns (ok: bool, errors: Errors, category: Category?)
      requires id !in names
      ensures errors == Validate(Strip(name), description, None, names)
      ensures ok <==> errors == map[]
      ensures !ok ==> category == null
      ensures ok ==> category != null && fresh(category) && category.id == id
      ensures ok ==> category.name == Strip(name) && category.description == Strip(description)
      ensures ok ==> category.isActive == isActive
    {
      var stripped := Strip(name);
      errors := Validate(stripped, description, None, names);
      if errors != map[] {
        return false, errors, null;
      }
      StripIdempotent(name);
      category := new Category.Create(id, Strip(stripped), Strip(description), isActive);
      ok := true;
    }

    /** `Category.update`: a non-empty name replaces the old one (stripped);
        the description and the flag are always overwritten in memory. Nothing
        is validated, so the save fails on the `unique=True` name column
        exactly when another category (`names`, by primary key) already has
        the resulting name; `saved` tells whether the row was written. */
    method Update(name: string, description: string, isActive: bool, names: map<nat, string>)
      returns (saved: bool)
      modifies this
      ensures this.name == (if name != "" then Strip(name) else old(this.name))
      ensures this.description == Strip(description) && this.isActive == isActive
      ensures saved <==> !TakenExactly(this.name, id, names)
    {
      if name != "" {
        this.name := Strip(name);
      }
      this.description := Strip(description);
      this.isActive := isActive;
      saved := !TakenExactly(this.name, id, names);
    }
  }

  /** The `unique=True` name column: another row (not `id`) holds exactly `value`. */
  predicate TakenExactly(value: string, id: nat, existing: map<nat, string>) {
    exists other :: other in existing && other != id && existing[other] == value
  }

  /** A name that `Category.validate` accepts for category `id` can be saved
      by `Category.update`: the case-insensitive check is the stricter one. */
  lemma ValidatedNameSaves(name: string, description: string, id: nat, names: map<nat, string>)
    requires "name" !in Category.Validate(name, description, Some(id), names)
    ensures !TakenExactly(name, id, names)
  {
    if TakenExactly(name, id, names) {
      var other :| other in names && other != id && names[other] == name;
      assert EqualsIgnoreCase(names[other], name);
    }
  }

  // ------------------------------------------------------------------- Venue

  const VenueNameBlank := "El nombre no puede estar vacío"
  const VenueNameTaken := "Ya existe una Ubicación con ese nombre"
  const VenueAddressBlank := "La dirección no puede estar vacía"
  const VenueAddressTaken := "Ya existe una ubicación con esa dirección en esta ciudad"

  /** The columns of a venue row that `Venue.validate` compares. */
  datatype VenueKey = VenueKey(name: string, address: string, city: string)

  /** Another venue with the same name, ignoring case. */
  predicate VenueNameTakenBy(name: string, venueId: Option<nat>, venues: map<nat, VenueKey>) {
    exists id :: id in venues && Some(id) != venueId && EqualsIgnoreCase(venues[id].name, name)
  }

  /** Another venue with the same address in the same city, ignoring case. */
  predicate VenueAddressTakenBy(address: string, city: string, venueId: Option<nat>,
                                venues: map<nat, VenueKey>) {
    exists id :: id in venues && Some(id) != venueId
      && EqualsIgnoreCase(venues[id].address, address) && EqualsIgnoreCase(venues[id].city, city)
  }

  /** Python's `a or b` on strings: `a` unless it is empty. */
  function OrString(a: string, b: string): (r: string)
    ensures a != "" ==> r == a
    ensures a == "" ==> r == b
  {
    if a != "" then a else b
  }

  /** Python's `a or b` on integers: `a` unless it is zero. */
  function OrInt(a: int, b: int): (r: int)
    ensures a != 0 ==> r == a
    ensures a == 0 ==> r == b
  {
    if a != 0 then a else b
  }

  class Venue {
    const id: nat
    var name: string
    var address: string
    var city: string
    var capacity: int
    var contact: string

    /** `Venue.objects.create(...)`. */
    constructor Create(id: nat, name: string, address: string, city: string,
                       capacity: int, contact: string)
      ensures this.id == id && this.name == name && this.address == address
      ensures this.city == city && this.capacity == capacity && this.contact == contact
    {
      this.id := id;
      this.name := name;
      this.address := address;
      this.city := city;
      this.capacity := capacity;
      this.contact := contact;
    }

    /** `Venue.validate`: a non-blank name unique ignoring case, and a
        non-blank address that no other venue has in the same city. */
    static function Validate(name: string, venueId: Option<nat>, address: string, city: string,
                             venues: map<nat, VenueKey>): (errors: Errors)
      ensures errors.Keys <= {"name", "address"}
      ensures "name" in errors <==> IsBlank(name) || VenueNameTakenBy(name, venueId, venues)
      ensures "name" in errors ==>
        errors["name"] == (if IsBlank(name) then VenueNameBlank else VenueNameTaken)
      ensures "address" in errors <==>
        IsBlank(address) || VenueAddressTakenBy(address, city, venueId, venues)
      ensures "address" in errors ==>
        errors["address"] == (if IsBlank(address) then VenueAddressBlank else VenueAddressTaken)
    {
      var nameErrors :=
        if IsBlank(name) then map["name" := VenueNameBlank]
        else if VenueNameTakenBy(name, venueId, venues) then map["name" := VenueNameTaken]
        else map[];
      if IsBlank(address) then nameErrors["address" := VenueAddressBlank]
      else if VenueAddressTakenBy(address, city, venueId, venues) then nameErrors["address" := VenueAddressTaken]
      else nameErrors
    }

    /** `Venue.new`: creates the row, with the values as given, only when
        validation found nothing. */
    static method New(id: nat, name: string, address: string, city: string, capacity: int,
                      contact: string, venues: map<nat, VenueKey>)
      returns (ok: bool, errors: Errors, venue: Venue?)
      requires id !in venues
      ensures errors == Validate(name, None, address, city, venues)
      ensures ok <==> errors == map[]
      ensures !ok ==> venue == null
      ensures ok ==> venue != null && fresh(venue) && venue.id == id && venue.name == name
      ensures ok ==> venue.address == address && venue.city == city
      ensures ok ==> venue.capacity == capacity && venue.contact == contact
    {
      errors := Validate(name, None, address, city, venues);
      if errors != map[] {
        return false, errors, null;
      }
      venue := new Venue.Create(id, name, address, city, capacity, contact);
      ok := true;
    }

    /** `Venue.update`: validates the NEW name against the OLD address and
        city, then keeps every old value whose new value is empty (or 0). */
    method Update(name: string, address: string, city: string, capacity: int, contact: string,
                  venues: map<nat, VenueKey>)
      returns (ok: bool, errors: Errors)
      modifies this
      ensures errors == Validate(name, Some(id), old(this.address), old(this.city), venues)
      ensures ok <==> errors == map[]
      ensures !ok ==> unchanged(this)
      ensures ok ==> this.name == OrString(name, old(this.name))
      ensures ok ==> this.address == OrString(address, old(this.address))
      ensures ok ==> this.city == OrString(city, old(this.city))
      ensures ok ==> this.capacity == OrInt(capacity, old(this.capacity))
      ensures ok ==> this.contact == OrString(contact, old(this.contact))
    {
      errors := Validate(name, Some(id), this.address, this.city, venues);
      if errors != map[] {
        return false, errors;
      }
      this.name := OrString(name, this.name);
      this.address := OrString(address, this.address);
      this.city := OrString(city, this.city);
      this.capacity := OrInt(capacity, this.capacity);
      this.contact := OrString(contact, this.contact);
      ok := true;
    }
  }

  // -------------------------------------------------------------- TicketType

  const TicketTypeNameTaken := "Ya existe un tipo de ticket con ese nombre"
  const TicketTypeNameRequired := "El nombre es requerido"
  const TicketTypePriceInvalid := "El precio debe ser un número mayor a 0"

  /** Prices are integer cents. */
  class TicketType {
    const id: nat
    var name: string
    var price: int

    constructor Create(id: nat, name: string, price: int)
      ensures this.id == id && this.name == name && this.price == price
    {
      this.id := id;
      this.name := name;
      this.price := price;
    }

    /** `TicketType.validate`: the name must be non-empty and not already
        used (exact match; the "required" message wins over "taken"), and
        the price must be present and positive. */
    static function Validate(name: string, price: Option<int>, names: set<string>): (errors: Errors)
      ensures errors.Keys <= {"name", "price"}
      ensures "name" in errors <==> name == "" || name in names
      ensures "name" in errors ==>
        errors["name"] == (if name == "" then TicketTypeNameRequired else TicketTypeNameTaken)
      ensures "price" in errors <==> price.None? || price.value <= 0
      ensures "price" in errors ==> errors["price"] == TicketTypePriceInvalid
    {
      var taken := if name in names then map["name" := TicketTypeNameTaken] else map[];
      var required := if name == "" then taken["name" := TicketTypeNameRequired] else taken;
      if price.None? || price.value <= 0 then required["price" := TicketTypePriceInvalid]
      else required
    }

    /** `TicketType.new`: creates the row only when validation found nothing. */
    static method New(id: nat, name: string, price: Option<int>, names: set<string>)
      returns (ok: bool, errors: Errors, ticketType: TicketType?)
      ensures errors == Validate(name, price, names)
      ensures ok <==> errors == map[]
      ensures !ok ==> ticketType == null
      ensures ok ==> ticketType != null && fresh(ticketType) && ticketType.id == id
      ensures ok ==> price.Some? && ticketType.name == name && ticketType.price == price.value
    {
      errors := Validate(name, price, names);
      if errors != map[] {
        return false, errors, null;
      }
      ticketType := new TicketType.Create(id, name, price.value);
      ok := true;
    }

    /** `TicketType.update`: only a present, positive price is stored. */
    method Update(price: Option<int>) returns (ok: bool, errors: Errors)
      modifies this
      ensures ok <==> price.Some? && price.value > 0
      ensures ok ==> errors == map[] && this.price == price.value && this.name == old(this.name)
      ensures !ok ==> errors == map["price" := TicketTypePriceInvalid] && unchanged(this)
    {
      if price.None? || price.value <= 0 {
        return false, map["price" := TicketTypePriceInvalid];
      }
      this.price := price.value;
      return true, map[];
    }
  }
}
