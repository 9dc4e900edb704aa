// include/math3d.h
module Math3d {
  datatype Vec3 = Vec3(x: real, y: real, z: real)
}
