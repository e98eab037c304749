/** Coordinates, over exact reals. */
module Geo {
  datatype LatLng = LatLng(lat: real, lng: real)

  /** Squared distance in the coordinate plane. */
  function SquaredDistance(a: LatLng, b: LatLng): real
  {
    (a.lat - b.lat) * (a.lat - b.lat) + (a.lng - b.lng) * (a.lng - b.lng)
  }
}
