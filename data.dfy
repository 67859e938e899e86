/** The parcel records the pipeline routes (WonderK.Common/Data). */
module Data {

  datatype Address = Address(street: string, houseNumber: int, postalCode: string, city: string)

  datatype Receipient = Receipient(name: string, address: Address)

  /** Weight and value are doubles in the source; they are exact reals here. */
  datatype Parcel = Parcel(receipient: Receipient, weight: real, value: real)

  /** The value `new Parcel()` has: empty strings and zero numbers. */
  function DefaultParcel(): Parcel
  {
    Parcel(Receipient("", Address("", 0, "", "")), 0.0, 0.0)
  }
}
