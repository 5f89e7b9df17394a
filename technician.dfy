/** A technician: an id, a name, a specialty and a contact, each overwritten by its own setter. */
module Staff {
  /** The four fields of a technician as its getters report them. */
  datatype TechnicianInfo = TechnicianInfo(id: string, name: string, specialty: string, contact: string)

  class Technician {
    var id: string
    var name: string
    var specialty: string
    var contact: string

    function Info(): TechnicianInfo
      reads this
    {
      TechnicianInfo(id, name, specialty, contact)
    }

    constructor Default()
      ensures Info() == TechnicianInfo("", "", "", "")
    {
      id, name, specialty, contact := "", "", "", "";
    }

    constructor (id: string, name: string, specialty: string, contact: string)
      ensures Info() == TechnicianInfo(id, name, specialty, contact)
    {
      this.id, this.name, this.specialty, this.contact := id, name, specialty, contact;
    }

    method SetId(id: string)
      modifies this
      ensures Info() == old(Info()).(id := id)
    {
      this.id := id;
    }

    method SetName(name: string)
      modifies this
      ensures Info() == old(Info()).(name := name)
    {
      this.name := name;
    }

    method SetSpecialty(specialty: string)
      modifies this
      ensures Info() == old(Info()).(specialty := specialty)
    {
      this.specialty := specialty;
    }

    method SetContact(contact: string)
      modifies this
      ensures Info() == old(Info()).(contact := contact)
    {
      this.contact := contact;
    }
  }
}
